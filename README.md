# RISCA core in Dafny

RISCA is a set of tools for nuclear-medicine DICOM data. This project models
five of them and proves properties of each:

- **The NM retriever** (`pacs_nm_retriever.py`):
  - queries a PACS with C-FIND for the studies of a date window;
  - keeps the studies whose ModalitiesInStudy mentions NM, up to a study limit;
  - finds the NM series of each study;
  - retrieves every series with getscu (C-GET) or with a C-MOVE to its own
    storage listener, and stores each received object under
    `output/PatientID/StudyUID/SeriesUID/SOPUID.dcm`;
  - counts images against an image limit, and in a dry run stores nothing.
- **The information lister** (`list_dicom_info.py`): writes one record per
  `.dcm` file. A record holds the display name (optionally a pseudonym
  "Patient_<id>"), the first available observation date and time, formatted
  as DD/MM/YYYY and HH:MM:SS, and the combined examined area.
- **The chest-scan finder** (`find_chest_scans.py`): reports the files whose
  lowercased body part, series description or study description contains
  one of a list of chest/thorax keywords. The list can be extended from the
  command line.
- **The web viewer's server** (`webview/src/server.rs`):
  - `/api/tree` files every readable DICOM file into a patient → study →
    series tree;
  - `/api/files` lists a directory with the directories first and names in
    order;
  - `/api/dicom/image` shapes the decoded pixel data into three bytes per
    pixel.
- **The viewer's browser side** (`webview/src/main.rs`): expands every byte
  it receives into an opaque RGBA pixel.

Modules follow the programs:

| Module | File | Contents |
|---|---|---|
| `Wrappers`, `Text` | wrappers.dfy, text.dfy | Option, and Python's and Rust's string operations as used here |
| `Dicom` | dicom.dfy | a parsed header as a map from attribute keyword to text |
| `DicomDate` | dicom_date.dfy | the date filter |
| `NmQuery` | nm_query.dfy | what `pacs_nm_retriever.py` computes without touching the retriever's state |
| `NmRetriever` | retriever.dfy | the retriever object |
| `DicomInfoList` | dicom_info.dfy | the information lister |
| `ChestScans` | chest_scans.dfy | the chest-scan finder |
| `WebviewTree`, `WebviewFiles`, `WebviewPixels` | webview_tree.dfy, webview_files.dfy, webview_pixels.dfy | the three server handlers |
| `WebviewCanvas` | webview_canvas.dfy | the browser loop |

The outside world is a parameter of each operation. This covers:

- the archive's replies to C-FIND and C-MOVE;
- getscu's exit status, output and written files;
- the files that fail to rename;
- header parsing, as a `Dataset` or an error message;
- the directory tree the walks see;
- the grey-level scaling;
- today's date.

The model then says what the code does with every answer those can give.

Stateful code is modelled with state:

- The retriever is a class. Its fields are the image counter and the set of
  files under the output directory.
- The lister and the finder are classes with a `results` field, updated as
  the Python objects update it.
- The `/api/tree` walk fills a map field in place.
- `list_files` sorts an `array` in place with an insertion sort. The sort is
  proved against a stable insertion-sort specification.

Each method is tied to a specification function. The properties are proved
about those functions, as lemmas.

Behaviour the proofs bring out, all following the code as written:

- **The browser refuses almost every image the server sends.** The image
  endpoint sends three bytes per pixel for an RGB image, and for a grey image
  whose decoder delivered the expected number of bytes. The browser loop takes
  every byte as one grey pixel and expands it to four RGBA bytes, twelve per
  image pixel. The `ImageData` constructor (webview/src/main.rs:27-31) accepts
  only four bytes per pixel of a `width * height` image. It therefore refuses
  these buffers, and `render_dicom_image` returns its error, whenever the image
  is non-empty and its `u32` pixel count does not wrap
  (`WebviewCanvas.ServedImageRefused`). A grey image with short decoded data
  is only logged by the server (webview/src/server.rs:350-352), which then
  sends three bytes per decoded pixel. Such an image is drawn exactly when a
  third of its pixels were decoded (`WebviewCanvas.ServedShortGreyDrawn`): three
  rows of one 8-bit pixel with a single decoded byte are drawn
  (`WebviewCanvas.ShortGreyExample`).
- **A trailing comma in `--keywords` matches every readable file.** The comma
  adds the empty keyword, and the empty keyword occurs in every field
  (`ChestScans.TrailingCommaAddsEmpty`, `ChestScans.EmptyKeywordMatchesAll`).
- **A negative study limit selects nothing.** The filter loop stops after the
  first NM study, and `nm_studies[:limit]` then cuts it away
  (`NmQuery.NmSelectionNegative`).
- **Large rows and columns wrap the pixel count.** The count is the `u32`
  product of rows and columns. Header values beyond 16 bits make it wrap:
  65536 by 65536 gives 0 (`WebviewPixels.TotalPixelsWraps`).
- **A dry run does not count images.** `retrieve_study` returns True before
  it looks up any series (pacs_nm_retriever.py:316-318), so `image_count`
  stays 0. The estimate from NumberOfStudyRelatedInstances
  (pacs_nm_retriever.py:531-533) is only logged and never reaches the
  counter. The closing dry-run message, "would have retrieved approximately
  N images" (pacs_nm_retriever.py:555-556), therefore always reports 0.

## Model

| member | source | states |
|---|---|---|
| Text.Contains | list_dicom_info.py:123-125 | `sub in s` is true exactly when `sub` occurs at some position of `s` |
| Text.Strip | list_dicom_info.py:89-134 | `str.strip()`: the result is a slice of the input, only whitespace lies outside it, and it neither starts nor ends with whitespace |
| Text.Split | pacs_nm_retriever.py:401 | `str.split(c)`: at least one part, no part contains `c`, and joining the parts with `c` gives back the input |
| Text.SplitJoin | find_chest_scans.py:239 | splitting the join of parts that do not contain the separator gives back those parts |
| Text.JoinSplit | pacs_nm_retriever.py:401 | joining the parts of `str.split(c)` with `c` gives back the input, for every input |
| Text.SplitTrailing | find_chest_scans.py:239 | a trailing separator adds exactly one empty part at the end of the split |
| Text.IndexOfFirst | pacs_nm_retriever.py:401 | the separator index `split` cuts at is the first occurrence |
| Text.Lower | find_chest_scans.py:60-62 | `lower()` keeps the length and maps each character through the ASCII lower-case mapping |
| Text.Upper | find_chest_scans.py:63 | `upper()` keeps the length and maps each character through the ASCII upper-case mapping |
| Text.ParseShowInt | pacs_nm_retriever.py:401 | `int(str(n)) == n`: parsing undoes decimal formatting |
| Text.ParseInt | pacs_nm_retriever.py:401 | definition of `int()` on stripped text: an optional sign, then digits with single underscores between them; anything else is None; ParseShowInt and ParseIntRefuses state its properties |
| Text.ParseIntRefuses | pacs_nm_retriever.py:401-404 | `int()` raises, and the count is left alone, on stripped text that holds a character other than a digit, an underscore or a sign |
| Text.ShowInt | pacs_nm_retriever.py:372 | definition of `str(n)`; ParseShowInt states that `int` reads it back |
| Text.Join | find_chest_scans.py:103-104 | definition of `sep.join(parts)`; SplitJoin and JoinSplit state its relation to `split` |
| Text.EndsWith | pacs_nm_retriever.py:409 | definition of `str.endswith`; SuffixAdded and RenamedSpec use it for the `.dcm` test |
| Text.IsAlnum | pacs_nm_retriever.py:162 | definition of the ASCII part of `str.isalnum()`, the test SanitizeId keeps characters by |
| Text.IsSpace | list_dicom_info.py:89 | definition of the characters `str.strip()` removes; Strip states what is removed |
| Text.SplitAt | pacs_nm_retriever.py:401 | the first separator ends the first part of `split`, and the rest is split on its own |
| Text.SplitFirstPart | pacs_nm_retriever.py:401 | a separator-free start of the text stays the start of the first part |
| Dicom.Attr | pacs_nm_retriever.py:156-159 | `getattr(ds, key, default)`, as Rust's `unwrap_or_else` default does in webview/src/server.rs:77-105: the attribute's value when present, the default otherwise |
| DicomDate.Valid | pacs_nm_retriever.py:197-199 | definition of the dates `datetime` represents, years 1 to 9999 with the Gregorian month lengths; PrevDay and DaysBefore keep it |
| DicomDate.Ordinal | pacs_nm_retriever.py:199 | definition of `date.toordinal()`, the day count `timedelta` arithmetic works on; PrevDay and DaysBefore move it by one and by `n` |
| DicomDate.PrevDay | pacs_nm_retriever.py:199 | the day before a date is a valid date whose ordinal is one less |
| DicomDate.DaysBefore | pacs_nm_retriever.py:199 | `d - timedelta(days=n)` is a valid date whose ordinal is `n` less |
| DicomDate.TwoDigits | pacs_nm_retriever.py:200 | the zero-padded month or day has two digits and denotes the number |
| DicomDate.FormatIsDA | pacs_nm_retriever.py:200 | `strftime('%Y%m%d')` of a four-digit year gives exactly eight digits denoting year, month and day, in that order |
| DicomDate.FormatDA | pacs_nm_retriever.py:200 | definition of `strftime('%Y%m%d')`: the year as glibc writes it, then the two-digit month and day; its properties are FormatIsDA and FormatHasNoDash |
| DicomDate.StudyDateFilterBounds | pacs_nm_retriever.py:698-709 | with `--from-date` or `--to-date` the filter is `from-to`, a missing bound replaced by 19700101 or 29991231, and it splits at '-' into the two bounds; otherwise it is `--study-date` verbatim, or None |
| DicomDate.StudyDateFilter | pacs_nm_retriever.py:698-709 | definition of the `study_date` that `main` passes on; its cases are stated by StudyDateFilterBounds |
| DicomDate.DefaultWindow | pacs_nm_retriever.py:195-201 | definition of the default range `<30 days ago>-<today>`; its span is stated by DefaultWindowSpan |
| DicomDate.QueryDate | pacs_nm_retriever.py:195-206 | the StudyDate queried is the filter when it is non-empty, else the default window |
| DicomDate.DefaultWindowSpan | pacs_nm_retriever.py:195-201 | the default window runs from exactly 30 days before today up to today, as two DA values joined by '-' |
| DicomDate.FormatHasNoDash | pacs_nm_retriever.py:200 | a formatted date contains no '-', so the range splits unambiguously |
| NmQuery.PendingAppend | pacs_nm_retriever.py:224-227 | collecting responses distributes over concatenation: results come in response order |
| NmQuery.Keeps | pacs_nm_retriever.py:224-227 | definition: a response is collected when its status is 0xFF00 or 0xFF01 and its identifier is non-empty |
| NmQuery.Truthy | pacs_nm_retriever.py:258-263 | definition of the truth value of an optional limit, as `if limit` reads it here and at lines 303 and 551: None and 0 mean no limit |
| NmQuery.Pending | pacs_nm_retriever.py:224-227 | definition of the collected identifiers, in response order; PendingAppend and PendingMembers state what it collects |
| NmQuery.PendingMembers | pacs_nm_retriever.py:224-227 | a dataset is collected exactly when some response with status 0xFF00 or 0xFF01 carries it as a non-empty identifier |
| NmQuery.Capped | pacs_nm_retriever.py:302-303 | the loop that stops at a truthy limit keeps at most the candidates it sees, always the first one, stops early only once it holds `limit` candidates, and not before: it never held `limit` at an earlier candidate |
| NmQuery.CollectPending | pacs_nm_retriever.py:298-304 | the series loop returns the pending identifiers in order, cut at the first point where a truthy limit is reached; at most `limit` for a positive limit; all of them without a limit |
| NmQuery.FindNmSeries | pacs_nm_retriever.py:276-310 | no established association gives no series; otherwise the capped pending identifiers, including those collected before an exception |
| NmQuery.NmStudiesAppend | pacs_nm_retriever.py:246-255 | the NM filter distributes over concatenation: kept studies stay in discovery order |
| NmQuery.IsNm | pacs_nm_retriever.py:246-255 | definition: ModalitiesInStudy present, non-empty, and containing "NM" |
| NmQuery.NmStudies | pacs_nm_retriever.py:246-255 | definition of the NM studies in discovery order; NmStudiesAppend, NmStudiesMembers and NmStudiesPrefix state its properties |
| NmQuery.Examined | pacs_nm_retriever.py:246-257 | definition of the NM studies the loop looks at before a truthy limit stops it |
| NmQuery.NmSelection | pacs_nm_retriever.py:246-263 | definition of the filter's outcome; its cases are NmSelectionUnlimited, NmSelectionLimited, NmSelectionNegative and NmSelectionSound, and FilterNmStudies ties the loop to it |
| NmQuery.NmStudiesMembers | pacs_nm_retriever.py:246-255 | a study is kept exactly when it is one of the collected studies and its ModalitiesInStudy is present, non-empty and contains "NM" |
| NmQuery.PySliceTo | pacs_nm_retriever.py:263 | `s[:n]` is a prefix of `s`, for any `n` including negative ones |
| NmQuery.NmSelectionUnlimited | pacs_nm_retriever.py:258-263 | with the limit None or 0 every NM study is returned |
| NmQuery.NmSelectionLimited | pacs_nm_retriever.py:258-263 | with a positive limit the result is the first `min(limit, #NM)` NM studies |
| NmQuery.NmSelectionNegative | pacs_nm_retriever.py:258-263 | a negative limit returns no study |
| NmQuery.NmSelectionSound | pacs_nm_retriever.py:246-263 | an AttributeError is raised exactly when an examined NM study lacks StudyInstanceUID; otherwise every returned study is an NM study of the input with a UID, and the result is a prefix of the NM studies |
| NmQuery.NmStudiesPrefix | pacs_nm_retriever.py:246-255 | the NM studies of a prefix of the input come first among all NM studies |
| NmQuery.SelectionThrows | pacs_nm_retriever.py:254 | the filter raises when the next NM study it logs has no UID and the limit has not been reached |
| NmQuery.SelectionStops | pacs_nm_retriever.py:258-263 | the filter stops at the NM study that reaches a truthy limit and returns `nm_studies[:limit]` |
| NmQuery.SelectionCompletes | pacs_nm_retriever.py:246-263 | when the limit is never reached the filter runs to the end and returns all NM studies, sliced by a truthy limit |
| NmQuery.FilterNmStudies | pacs_nm_retriever.py:246-263 | the filter loop computes exactly the selection specified by `NmSelection` |
| NmQuery.FindNmStudies | pacs_nm_retriever.py:217-263 | a failed association or an exception during the C-FIND gives no studies; otherwise the collected studies are filtered and limited |
| NmQuery.RetrieveQuery | pacs_nm_retriever.py:333-337 | the retrieve identifier holds exactly QueryRetrieveLevel SERIES, the study UID and the series UID |
| NmQuery.StudyQuery | pacs_nm_retriever.py:204-209 | definition of the STUDY-level C-FIND identifier: the date, and empty StudyInstanceUID, PatientID and ModalitiesInStudy |
| NmQuery.SeriesQuery | pacs_nm_retriever.py:278-285 | definition of the SERIES-level C-FIND identifier: the study UID, Modality NM, and the empty return keys |
| NmQuery.SanitizeIdChars | pacs_nm_retriever.py:162 | the sanitised patient ID holds only alphanumerics, '-' and '_' |
| NmQuery.SanitizeId | pacs_nm_retriever.py:162 | definition of the sanitised patient ID; SanitizeIdChars, SanitizeIdOrder and SanitizeIdKeeps state its properties |
| NmQuery.SanitizeIdOrder | pacs_nm_retriever.py:162 | the sanitised ID is the original with some characters left out, in the original order |
| NmQuery.SanitizeIdKeeps | pacs_nm_retriever.py:162 | every occurrence of an alphanumeric, '-' or '_' is kept |
| NmQuery.StorePathLayout | pacs_nm_retriever.py:156-175 | the stored file ends in `.dcm`; the path is made of the non-empty components in order, the last being `<sop>.dcm`; when no segment contains '/' the path splits back at '/' into exactly those segments |
| NmQuery.StoreComponents | pacs_nm_retriever.py:156-175 | definition of the five path components, with the defaults for absent attributes and the sanitised patient ID |
| NmQuery.WithoutEmpty | pacs_nm_retriever.py:170-175 | path joining drops empty components: no empty part is left, a part is kept exactly when it is a non-empty component, order is kept and a non-empty last component stays last |
| NmQuery.WithoutEmptyKeeps | pacs_nm_retriever.py:170-175 | components that are all non-empty are all kept |
| NmQuery.StoreSegments | pacs_nm_retriever.py:170-175 | definition of the path segments: the non-empty components |
| NmQuery.StorePath | pacs_nm_retriever.py:170-175 | definition of the storage path: the segments joined by '/'; StorePathLayout and StorePathFull state its layout |
| NmQuery.StorePathFull | pacs_nm_retriever.py:170-175 | with a non-empty output directory, sanitised patient ID, study and series, the path is made of all five components |
| NmQuery.Counts | pacs_nm_retriever.py:398-403 | one parsed count per output line, each line's count read from it alone |
| NmQuery.GetscuArgs | pacs_nm_retriever.py:365-385 | definition of the getscu command line: the calling and called AE titles, host and port, the output directory and the query keys |
| NmQuery.LineCount | pacs_nm_retriever.py:399-401 | definition of the count one line yields: none without the marker, a ':' or an integer after it |
| NmQuery.LastSomeNone | pacs_nm_retriever.py:397-403 | no count is found exactly when no line yields one |
| NmQuery.LastCount | pacs_nm_retriever.py:397-403 | definition: the count of the last line that yields one; LastCountSpec states it |
| NmQuery.CompletedCount | pacs_nm_retriever.py:397-403 | definition: `completed` after the loop, 0 when no line yields a count; ParseCompleted ties the loop to it |
| NmQuery.LastSomeLatest | pacs_nm_retriever.py:397-403 | the count found comes from a line after which no line yields a count |
| NmQuery.LastCountSpec | pacs_nm_retriever.py:397-403 | `completed` comes from the last line with the marker whose count parses, and there is none exactly when no line yields a count |
| NmQuery.ParseCompleted | pacs_nm_retriever.py:397-403 | the parse loop returns the last parseable count, 0 when there is none |
| NmQuery.CountLineParses | pacs_nm_retriever.py:399-401 | a line `<text with the marker>: <n>` whose only ':' is that one yields `n` |
| NmQuery.PrefixedCountLineFails | pacs_nm_retriever.py:399-404 | a line whose first ':' comes before the marker, as after a log prefix such as "I: ", yields no count: the text `int()` sees holds the marker's letters |
| NmQuery.RenamedSpec | pacs_nm_retriever.py:405-416 | after the rename pass every file has the `.dcm` suffix unless its rename failed; each file lacking the suffix whose rename succeeds reappears with it, every other file stays, and every file after the pass is one of those two kinds |
| NmQuery.Renamed | pacs_nm_retriever.py:405-416 | definition of the files after the rename pass; RenamedSpec and RenamedIdempotent state its properties |
| NmQuery.RenamedIdempotent | pacs_nm_retriever.py:405-416 | a second rename pass renames nothing |
| NmRetriever.FirstMissing | pacs_nm_retriever.py:331 | the first series without SeriesInstanceUID, where `retrieve_study` raises; every series before it has a UID |
| NmRetriever.GetOk | pacs_nm_retriever.py:349-439 | definition: `_retrieve_with_get` returns True exactly on exit status 0 |
| NmRetriever.MoveOk | pacs_nm_retriever.py:443-507 | definition: `_retrieve_with_move` returns True exactly when the listener starts, the association is established and the C-MOVE does not raise |
| NmRetriever.StoredFiles | pacs_nm_retriever.py:170-184 | definition of the paths `handle_store` writes: the storage path of each delivery that saves |
| NmRetriever.SeriesFound | pacs_nm_retriever.py:276-310 | definition of the series `find_nm_series` returns without a limit: the collected identifiers, none without an association |
| NmRetriever.StudiesFound | pacs_nm_retriever.py:217-263 | definition of the outcome of `find_nm_studies`: no studies on a failed association or a C-FIND exception, else the NM selection of the collected studies |
| NmRetriever.Requests | pacs_nm_retriever.py:330-337 | one SERIES-level request per series retrieved |
| NmRetriever.RequestsSnoc | pacs_nm_retriever.py:330-337 | one more series appends its SERIES-level request |
| NmRetriever.Reached | pacs_nm_retriever.py:551 | definition of the stop test `max_images and self.image_count >= max_images` |
| NmRetriever.SearchStudies | pacs_nm_retriever.py:186-270 | `find_nm_studies` queries the filter or the default window and returns the NM selection of the reply; every returned study has a StudyInstanceUID |
| NmRetriever.Retriever.constructor | pacs_nm_retriever.py:45-76 | a new retriever keeps its configuration, and its image count starts at 0 |
| NmRetriever.Retriever.WrittenStep | pacs_nm_retriever.py:170-184 | one more delivery adds its storage path exactly when it is saved outside a dry run |
| NmRetriever.Retriever.Written | pacs_nm_retriever.py:165-184 | definition: no file in a dry run, otherwise the storage paths of the saved deliveries |
| NmRetriever.Retriever.HandleStore | pacs_nm_retriever.py:150-184 | every call adds exactly 1 to the image count; a dry run answers 0x0000 and writes nothing; otherwise 0x0000 with the file written under its storage path, or 0xC000 when the save fails |
| NmRetriever.Retriever.RenamePass | pacs_nm_retriever.py:405-416 | the files after the pass are `Renamed` of the files before it |
| NmRetriever.Retriever.RetrieveWithGet | pacs_nm_retriever.py:349-439 | success exactly on exit status 0; then every file under the output directory lacking `.dcm` is renamed and a positive completed count is added to the counter; on another exit status, the timeout, or an exception raised after getscu ran, the files getscu wrote stay and the counter is unchanged; when getscu is missing nothing changes |
| NmRetriever.Retriever.RetrieveWithMove | pacs_nm_retriever.py:443-507 | success exactly when the move completes; each delivered object passes through `handle_store`, so the count grows by the number of deliveries; the listener is shut down on every path |
| NmRetriever.Retriever.SeriesOk | pacs_nm_retriever.py:339-345 | definition: whether the configured method succeeds for one series |
| NmRetriever.Retriever.AfterSeries | pacs_nm_retriever.py:339-345 | definition of the count and files after one series by the configured method, for each answer of the environment |
| NmRetriever.AfterGet | pacs_nm_retriever.py:387-439 | definition of the count and files after one getscu answer: renamed files and the completed count on exit 0; the written files alone on another exit, the timeout or an exception; nothing for a missing getscu |
| NmRetriever.Retriever.AfterAll | pacs_nm_retriever.py:330-345 | definition of the count and files after the series requests, in order |
| NmRetriever.Retriever.AfterAllSnoc | pacs_nm_retriever.py:330-345 | one more series request applies its own effect last |
| NmRetriever.Retriever.AfterAllAppend | pacs_nm_retriever.py:330-345 | the effect of two runs of requests is the effect of one after the other |
| NmRetriever.Retriever.AfterAllGrows | pacs_nm_retriever.py:330-345 | no run of retrievals lowers the count |
| NmRetriever.Retriever.AllOk | pacs_nm_retriever.py:330-347 | definition: every retrieval of a run succeeds |
| NmRetriever.Retriever.AllOkSnoc | pacs_nm_retriever.py:341-345 | one more request keeps the success flag exactly when it succeeds, as `success = False` does |
| NmRetriever.Retriever.AllOkEach | pacs_nm_retriever.py:330-347 | a run succeeds exactly when each of its retrievals does |
| NmRetriever.Retriever.StudyThrows | pacs_nm_retriever.py:331 | definition: `retrieve_study` raises outside a dry run when some NM series lacks SeriesInstanceUID |
| NmRetriever.Retriever.StudyOk | pacs_nm_retriever.py:312-347 | definition of what `retrieve_study` returns: True in a dry run; otherwise the study has NM series and every one is retrieved |
| NmRetriever.Retriever.StudyRequests | pacs_nm_retriever.py:312-337 | the requests of one study are retrievable: none in a dry run or without series, else one per series up to the first without a UID |
| NmRetriever.Retriever.StudyEarlyExits | pacs_nm_retriever.py:316-325 | in a dry run, or when the study has no NM series, `retrieve_study` makes no request, does not raise, returns True exactly in a dry run, and changes neither count nor files |
| NmRetriever.Retriever.StudiesRequests | pacs_nm_retriever.py:545-549 | the requests of a run of studies are retrievable; they are those of each study in order |
| NmRetriever.Retriever.StudiesRequestsFront | pacs_nm_retriever.py:545-549 | the requests of the first `k` studies begin with those of the first study |
| NmRetriever.Retriever.Summary | pacs_nm_retriever.py:312-347 | definition of one study as the top-level loop sees it: UID, whether it raises, its requests and their effect |
| NmRetriever.Retriever.Summaries | pacs_nm_retriever.py:545-549 | one summary per study |
| NmRetriever.Retriever.SummaryAt | pacs_nm_retriever.py:545-549 | summary `k` is the summary of study `k` |
| NmRetriever.Retriever.SummaryFacts | pacs_nm_retriever.py:545-549 | summary `k` carries the UID of study `k`, whether it raises, its requests, and their effect on any count and files |
| NmRetriever.Retriever.RunStudies | pacs_nm_retriever.py:545-553 | definition of what the study loop of `retrieve_images` does, as `Loop` over the summaries |
| NmRetriever.Retriever.SummariesGrow | pacs_nm_retriever.py:545-549 | no study lowers the count |
| NmRetriever.Retriever.SummariesCompose | pacs_nm_retriever.py:545-549 | the first `n` summaries make the requests of the first `n` studies and leave the count and files those requests leave |
| NmRetriever.Retriever.RunStudiesRetrievals | pacs_nm_retriever.py:545-553 | the loop makes the requests of exactly the studies it starts, in order, and leaves the count and files those requests leave |
| NmRetriever.Retriever.RunStudiesRecords | pacs_nm_retriever.py:545-553 | the count recorded after a study is the count after the requests of that study and all before it |
| NmRetriever.Retriever.RetrieveSeries | pacs_nm_retriever.py:339-345 | one series by the configured method: the result is `SeriesOk`, and the new count and files are `AfterSeries` of the old ones |
| NmRetriever.Retriever.RetrieveAllSeries | pacs_nm_retriever.py:329-347 | every series is attempted in turn, even after a failure; it raises exactly when some series lacks a UID, after the requests for the series before it; the result is whether every series is retrieved; the new count and files are `AfterAll` of the requests made |
| NmRetriever.Retriever.RetrieveStudy | pacs_nm_retriever.py:312-347 | raises exactly when `StudyThrows`, otherwise returns `StudyOk`; makes exactly the requests `StudyRequests`, and the new count and files are `AfterAll` of them |
| NmRetriever.Retriever.RetrieveStudies | pacs_nm_retriever.py:545-553 | the loop does exactly what `RunStudies` specifies: whether it raised, the studies finished with their counts, the requests made, and the final count and files |
| NmRetriever.Retriever.FinishedStops | pacs_nm_retriever.py:545-553 | studies finish in order and none of them raises; the loop stops at the first raising study, or right after the first study whose count reaches a truthy `max_images`, or at the end |
| NmRetriever.Retriever.FinishedCounts | pacs_nm_retriever.py:545-553 | the recorded counts lie between the starting and final count and never decrease; without an exception the final count is the last recorded one |
| NmRetriever.Retriever.RetrieveImages | pacs_nm_retriever.py:509-553 | an exception of the selection ends the run with nothing changed; otherwise the selected studies are run as `RunStudies` specifies: they finish in order, the loop stops at the first raising study or right after the first whose count reaches a truthy `max_images`, and the recorded counts lie between the old and new count, never decrease, and end at the new count unless the loop raised |
| NmRetriever.RenamedStep | pacs_nm_retriever.py:407-416 | the rename pass after one more file: the file is renamed unless it has the suffix or its rename fails |
| NmRetriever.RenamedInsert | pacs_nm_retriever.py:407-416 | renaming one more file adds either its renamed or its unchanged name |
| NmRetriever.Prefixed | pacs_nm_retriever.py:545-553 | definition of a loop run preceded by finished studies and requests |
| NmRetriever.PrefixedAssoc | pacs_nm_retriever.py:545-553 | prefixing twice is prefixing with the concatenations |
| NmRetriever.Loop | pacs_nm_retriever.py:545-553 | definition of the study loop over summaries: stop at a raising study, record the count otherwise, stop after a study that reaches a truthy limit |
| NmRetriever.LoopStep | pacs_nm_retriever.py:545-553 | the loop from study `i` on takes one study and goes on from `i + 1` |
| NmRetriever.LoopNext | pacs_nm_retriever.py:545-553 | one iteration of `RetrieveStudies`: the three ways it can end, raising, reaching the limit, or going on |
| NmRetriever.Requested | pacs_nm_retriever.py:545-553 | definition of the requests of a run of summaries, in order |
| NmRetriever.Compose | pacs_nm_retriever.py:545-553 | definition of the count and files after a run of summaries, in order |
| NmRetriever.LoopStops | pacs_nm_retriever.py:545-553 | the stop conditions of the loop, for any summaries |
| NmRetriever.LoopCounts | pacs_nm_retriever.py:545-553 | when no study lowers the count, the recorded counts are bounded by the start and the end and never decrease; without an exception the end count is the last one recorded |
| NmRetriever.LoopRetrievals | pacs_nm_retriever.py:545-553 | the loop makes the requests of the studies it starts and leaves their composed effect |
| NmRetriever.LoopRecords | pacs_nm_retriever.py:545-553 | the count recorded for study `j` is the count after the first `j + 1` studies |
| DicomInfoList.FormatDate | list_dicom_info.py:42-55 | "YYYYMMDD..." becomes "DD/MM/YYYY"; strings shorter than eight characters, the empty one included, come back unchanged |
| DicomInfoList.FormatDateSplit | list_dicom_info.py:48-52 | the formatted date splits at '/' into day, month and year of the input |
| DicomInfoList.FormatTime | list_dicom_info.py:57-70 | "HHMMSS..." becomes "HH:MM:SS"; strings shorter than six characters, the empty one included, come back unchanged |
| DicomInfoList.FormatTimeDropsFraction | list_dicom_info.py:63-67 | fractional seconds do not reach the formatted time |
| DicomInfoList.AnonymizeName | list_dicom_info.py:72-76 | the pseudonym is "Patient_<id>", and "UNKNOWN" exactly when name and id are both empty |
| DicomInfoList.AnonymizeIgnoresName | list_dicom_info.py:72-76 | the pseudonym of a non-empty name depends on the patient ID alone |
| DicomInfoList.DisplayName | list_dicom_info.py:95-98 | the pseudonym only when anonymising a non-empty name; otherwise the name, or the patient ID when the name is empty |
| DicomInfoList.DisplayNameHidesName | list_dicom_info.py:95-96 | once anonymised, two files of one patient ID display the same name |
| DicomInfoList.FirstNonEmpty | list_dicom_info.py:107-114 | `a or b or ...` is the first non-empty string, and empty exactly when all are |
| DicomInfoList.AddDescription | list_dicom_info.py:123-126 | a non-empty description ends up contained in the area; an already contained one changes nothing; the area only grows at its end |
| DicomInfoList.ExaminedArea | list_dicom_info.py:122-126 | definition of `examined_area`: body part, then study and series description; ExaminedAreaCovers states what it holds |
| DicomInfoList.ExaminedAreaCovers | list_dicom_info.py:122-126 | the examined area starts with the body part, contains both non-empty descriptions, and is empty only when all three are |
| DicomInfoList.AddDescriptionIdempotent | list_dicom_info.py:123-126 | adding a description twice adds it once |
| DicomInfoList.ErrorInfo | list_dicom_info.py:157-178 | the error record: name and id "ERROR", area "ERROR: <message>", the other fields empty |
| DicomInfoList.RawOf | list_dicom_info.py:88-134 | definition of the stripped attribute values with their defaults |
| DicomInfoList.Field | list_dicom_info.py:89-134 | definition of `str(getattr(ds, key, default)).strip()`, the value every column starts from |
| DicomInfoList.InfoFrom | list_dicom_info.py:88-155 | definition of the record of a readable file; InfoFromFields states its columns |
| DicomInfoList.ExtractInfo | list_dicom_info.py:78-178 | the record carries the file's path, and an unreadable file gives the error record |
| DicomInfoList.InfoFromFields | list_dicom_info.py:88-155 | a readable file's record: the patient ID, the display name cases, the first non-empty of the four dates raw and formatted, and the examined area covering body part and descriptions |
| DicomInfoList.AnonymizeOnlyName | list_dicom_info.py:94-98 | anonymising changes the patient-name column and nothing else |
| DicomInfoList.Records | list_dicom_info.py:193-200 | one record per discovered file |
| DicomInfoList.RecordsAt | list_dicom_info.py:193-200 | record `k` is the record of file `k`: discovery order, error records included |
| DicomInfoList.RecordsSnoc | list_dicom_info.py:198-199 | one more file appends its record |
| DicomInfoList.Lister.ScanDirectory | list_dicom_info.py:180-203 | returns the records of the discovered files; with none `results` is untouched, otherwise `results` is the returned list |
| DicomInfoList.NewLister | list_dicom_info.py:34-40 | a lister exists exactly when its directory does, with the settings given and no results |
| ChestScans.MatchedFields | find_chest_scans.py:73-89 | no field is named exactly when no keyword occurs in any of the three fields |
| ChestScans.AnyKeyword | find_chest_scans.py:73-89 | definition: some keyword is a substring of the text, the test each keyword loop makes |
| ChestScans.BodyOf | find_chest_scans.py:60 | definition of the lowercased BodyPartExamined, empty when absent |
| ChestScans.SeriesOf | find_chest_scans.py:61 | definition of the lowercased SeriesDescription, empty when absent |
| ChestScans.StudyOf | find_chest_scans.py:62 | definition of the lowercased StudyDescription, empty when absent |
| ChestScans.MatchedFieldsOrdered | find_chest_scans.py:73-89 | each field is named at most once, in the order body part, series, study, and exactly when a keyword occurs in it |
| ChestScans.MatchedTexts | find_chest_scans.py:73-89 | one matched text per matched field |
| ChestScans.ChestMatch | find_chest_scans.py:49-111 | None exactly when the file cannot be read or no keyword occurs in any lowercased field; a row names its file |
| ChestScans.ChestMatchRow | find_chest_scans.py:60-104 | a row holds the compared fields in lower case, the modality in upper case, the identifiers with their defaults, and the matched names and texts joined by ", " and " \| ", one text per name |
| ChestScans.Matches | find_chest_scans.py:126-137 | at most one row per file; which rows, and in what order, is stated by MatchesUnfold, MatchesSound, RowInMatches and MatchesComplete |
| ChestScans.MatchesUnfold | find_chest_scans.py:130-134 | one more file adds its row, if it has one, at the end |
| ChestScans.MatchesSound | find_chest_scans.py:126-137 | every reported row is the match of a discovered file |
| ChestScans.RowInMatches | find_chest_scans.py:126-137 | the row of every discovered file is reported |
| ChestScans.MatchesComplete | find_chest_scans.py:126-137 | every matching file has its row in the report |
| ChestScans.CustomKeywords | find_chest_scans.py:238-240 | one keyword per comma-separated part, stripped and lowercased |
| ChestScans.CustomKeywordsNormal | find_chest_scans.py:238-240 | custom keywords are lower case and carry no surrounding whitespace |
| ChestScans.CapitalNeverMatches | find_chest_scans.py:60-62 | a keyword with a capital letter never occurs in a lowercased field |
| ChestScans.EmptyKeywordMatchesAll | find_chest_scans.py:73-92 | with the empty keyword every readable file matches |
| ChestScans.TrailingCommaAddsEmpty | find_chest_scans.py:239 | `--keywords lung,` adds "lung" and the empty keyword |
| ChestScans.Finder.constructor | find_chest_scans.py:35-47 | a new finder has the built-in keywords and no results |
| ChestScans.Finder.KeywordIn | find_chest_scans.py:73-77 | the keyword loop finds a keyword exactly when one occurs in the text |
| ChestScans.Finder.IsChestScan | find_chest_scans.py:49-111 | `is_chest_scan` computes `ChestMatch` |
| ChestScans.Finder.ScanDirectory | find_chest_scans.py:113-138 | returns exactly the matches, in file order; with no file `results` is untouched, otherwise `results` is the returned list |
| ChestScans.Finder.AddKeywords | find_chest_scans.py:238-240 | a non-empty `--keywords` appends its normalised parts after the existing keywords, which are unchanged |
| ChestScans.NewFinder | find_chest_scans.py:42-47 | a finder exists exactly when its directory does |
| WebviewTree.KeyOf | webview/src/server.rs:77-111 | a missing PatientID, StudyInstanceUID or SeriesInstanceUID becomes "UNKNOWN", "UNKNOWN_STUDY" or "UNKNOWN_SERIES" |
| WebviewTree.RelativePath | webview/src/server.rs:125-128 | definition of `strip_prefix` of the base directory, the path unchanged when it is not below it |
| WebviewTree.NewPatient | webview/src/server.rs:130-134 | definition of the patient record `or_insert` creates |
| WebviewTree.NewStudy | webview/src/server.rs:136-141 | definition of the study record `or_insert` creates |
| WebviewTree.NewSeries | webview/src/server.rs:143-149 | definition of the series record `or_insert` creates, with no image |
| WebviewTree.Insert | webview/src/server.rs:130-152 | definition of filing one file; InsertWellFormed, InsertExactlyOne, InsertFirstWriterWins, InsertNewRecords and InsertImages state its properties |
| WebviewTree.InsertWellFormed | webview/src/server.rs:130-152 | filing a file keeps each record under its own key and `image_count == images.len()` |
| WebviewTree.InsertExactlyOne | webview/src/server.rs:130-152 | a file's path is pushed onto the one series its keys name, and every other series is unchanged |
| WebviewTree.InsertFirstWriterWins | webview/src/server.rs:130-149 | existing records keep their name, description, date and modality |
| WebviewTree.InsertNewRecords | webview/src/server.rs:130-149 | a first sight takes its metadata from that file |
| WebviewTree.InsertAllAppend | webview/src/server.rs:69-156 | filing two runs of files is filing one after the other |
| WebviewTree.FilesOf | webview/src/server.rs:69-76 | definition of the files the walk opens, in walk order: a readable directory's entries in turn, a file that opens |
| WebviewTree.InsertAll | webview/src/server.rs:69-156 | definition of filing files one after the other |
| WebviewTree.InsertImages | webview/src/server.rs:151-152 | one file extends the image list of its own key by its path, and no other list |
| WebviewTree.InsertAllImages | webview/src/server.rs:69-156 | after the walk each series lists exactly the files filed under its keys, in walk order |
| WebviewTree.InsertAllWellFormed | webview/src/server.rs:69-156 | the walk keeps the tree well formed |
| WebviewTree.TreeOfWalk | webview/src/server.rs:65-161 | the answer of `/api/tree` is well formed and each series lists exactly the opened files with its keys |
| WebviewTree.Tree.AddFile | webview/src/server.rs:77-152 | one opened file is filed as `Insert` specifies |
| WebviewTree.Tree.ScanDirectory | webview/src/server.rs:69-156 | the walk files every opened file below the directory, in walk order, as `InsertAll` specifies |
| WebviewTree.GetDicomTree | webview/src/server.rs:65-161 | a fresh map filled by the walk |
| WebviewFiles.EntryPath | webview/src/server.rs:183-187 | an entry's path is its name when the requested path is empty, else `<requested>/<name>` |
| WebviewFiles.EntryPathSplit | webview/src/server.rs:183-187 | that path splits at '/' into the requested components followed by the name |
| WebviewFiles.Collected | webview/src/server.rs:177-196 | at most one entry per `read_dir` item |
| WebviewFiles.NameLess | webview/src/server.rs:202 | definition of `a.name.cmp(&b.name)`, Rust's lexicographic order on characters; NameLessTotal, NameLessTransitive and NameLessIrreflexive state that it is a strict total order |
| WebviewFiles.NameLessTotal | webview/src/server.rs:198-204 | two distinct names are ordered one way or the other |
| WebviewFiles.NameLessTransitive | webview/src/server.rs:198-204 | the name order is transitive |
| WebviewFiles.NameLessIrreflexive | webview/src/server.rs:198-204 | no name sorts before itself |
| WebviewFiles.LeTotal | webview/src/server.rs:198-204 | the comparator orders any two entries |
| WebviewFiles.Less | webview/src/server.rs:198-204 | definition of the comparator's strict order: directories first, then by name |
| WebviewFiles.LeTransitive | webview/src/server.rs:198-204 | the comparator is transitive |
| WebviewFiles.InsertFromRightPermutes | webview/src/server.rs:198-204 | inserting an entry adds it and loses nothing |
| WebviewFiles.InsertFromRightSorted | webview/src/server.rs:198-204 | inserting into a sorted listing keeps it sorted |
| WebviewFiles.SortSeqCorrect | webview/src/server.rs:198-204 | the sort returns a sorted rearrangement of its input |
| WebviewFiles.SortSeq | webview/src/server.rs:198-204 | definition of the stable insertion sort; SortSeqCorrect states it sorts and permutes |
| WebviewFiles.SortedMeansDirsFirst | webview/src/server.rs:198-204 | in a sorted listing every directory precedes every file, and entries of one kind appear by name |
| WebviewFiles.InsertFromRightStep | webview/src/server.rs:198-204 | one step of the insertion moves the passed entry behind the insertion point |
| WebviewFiles.InsertLast | webview/src/server.rs:198-204 | the inner loop inserts `a[i]` into the sorted prefix and leaves the rest of the array alone |
| WebviewFiles.SortEntries | webview/src/server.rs:198-204 | the array is sorted in place into `SortSeq` of its old contents |
| WebviewFiles.CollectEntries | webview/src/server.rs:177-196 | the loop pushes exactly the entries whose metadata could be read, in `read_dir` order |
| WebviewFiles.ListFiles | webview/src/server.rs:163-207 | a failed `read_dir` gives an empty listing; otherwise the sorted collected entries |
| WebviewFiles.ListingOrdered | webview/src/server.rs:177-204 | the listing is sorted, directories first, and a rearrangement of the collected entries |
| WebviewPixels.ShapeOf | webview/src/server.rs:288-312 | absent header values become 0 rows, 0 columns, 16 bits, MONOCHROME2 and one sample |
| WebviewPixels.TotalPixels | webview/src/server.rs:317 | the `u32` pixel count is below 2^32 and exact when the product fits |
| WebviewPixels.TotalPixelsExact | webview/src/server.rs:317 | 16-bit rows and columns never wrap the count |
| WebviewPixels.TotalPixelsWraps | webview/src/server.rs:317 | 65536 by 65536 counts 0 pixels |
| WebviewPixels.RgbBuffer | webview/src/server.rs:319-330 | exactly `rows*cols*3` bytes, the data where there is some and zeros after |
| WebviewPixels.IsRgb | webview/src/server.rs:319 | definition: the photometric interpretation contains "RGB" or there are three samples per pixel |
| WebviewPixels.RgbBufferCases | webview/src/server.rs:319-330 | the RGB buffer is the prefix of long enough data, else the data followed by zeros |
| WebviewPixels.LE16 | webview/src/server.rs:345 | the little-endian pair: low byte `v % 256`, high byte `v / 256` |
| WebviewPixels.DecodeGrey8 | webview/src/server.rs:338-341 | one value per byte, for `min(len, expected)` bytes |
| WebviewPixels.BytesPerPixel | webview/src/server.rs:333 | definition: 1 byte per pixel up to 8 bits allocated, else 2 |
| WebviewPixels.DecodeGrey16 | webview/src/server.rs:343-348 | pixel `k` is `data[2k] + 256*data[2k+1]`, for the complete pairs below `min(len, expected)` |
| WebviewPixels.MinOr | webview/src/server.rs:355 | the least pixel value, or 0 for no pixel |
| WebviewPixels.MaxOr | webview/src/server.rs:356 | the greatest pixel value, or 1 for no pixel |
| WebviewPixels.GreyToRgb | webview/src/server.rs:359-371 | three equal bytes per pixel, in pixel order |
| WebviewPixels.Level | webview/src/server.rs:359-366 | definition of the grey level: the scaling parameter over the range, 0 for a flat image |
| WebviewPixels.FlatImageIsBlack | webview/src/server.rs:362-366 | an image whose pixels all have one value is black |
| WebviewPixels.GetDicomImage | webview/src/server.rs:278-385 | read and decode failures are answered with their messages; otherwise width and height are the columns and rows and the buffer is `ServedLength` long; an RGB image gives its padded buffer, a grey image three equal bytes per decoded pixel |
| WebviewPixels.GreyLengthFull | webview/src/server.rs:333-371 | with enough decoded data a grey image also has exactly three bytes per pixel |
| WebviewPixels.ServedLength | webview/src/server.rs:317-371 | definition of the reply's buffer length: three bytes per counted pixel for RGB, three per decoded grey pixel, the decoder stopping at the data or the expected length |
| WebviewCanvas.GreyToRgba | webview/src/main.rs:19-25 | four bytes per input byte, in input order: three copies of the byte, then 255 |
| WebviewCanvas.RgbaLayout | webview/src/main.rs:20-24 | every output byte is the alpha 255 or the byte of the input pixel it belongs to |
| WebviewCanvas.ServerBufferExpandsThreefold | webview/src/main.rs:19-31 | a three-bytes-per-pixel server buffer becomes an RGBA buffer three times the size of a `width*height` image, which `ImageData` refuses |
| WebviewCanvas.ImageDataAccepts | webview/src/main.rs:27-31 | definition of the length check of the `ImageData(data, sw, sh)` constructor, as the HTML standard writes it |
| WebviewCanvas.ImageDataAcceptsExactly | webview/src/main.rs:27-31 | the constructor accepts a buffer exactly when both dimensions are non-zero and it holds four bytes per pixel |
| WebviewCanvas.RenderDicomImage | webview/src/main.rs:4-36 | the image is drawn exactly when both dimensions are non-zero and there is one input byte per pixel; otherwise the constructor's error is returned |
| WebviewCanvas.ServedImageRefused | webview/src/server.rs:317-371 | for a non-empty image whose pixel count does not wrap, an RGB reply or a grey reply with enough decoded data holds three bytes per pixel and `ImageData` refuses it |
| WebviewCanvas.ServedShortGreyDrawn | webview/src/server.rs:333-371 | a grey reply is accepted by `ImageData` exactly when three times the number of decoded pixels equals the pixel count |
| WebviewCanvas.ShortGreyExample | webview/src/server.rs:333-371 | three rows of one 8-bit MONOCHROME2 pixel with one decoded byte give three bytes, which `ImageData` accepts |

## Left out

- The pynetdicom layer is left out: association, C-FIND/C-MOVE sending, `start_server`/`shutdown` and the AE setup (pacs_nm_retriever.py:79-146, 451-507). Their answers are the `Env` parameter. The storage listener runs concurrently with the C-MOVE; the model delivers its objects one after the other.
- The getscu subprocess and its five-minute timeout (pacs_nm_retriever.py:355-393) are left out. What it returns is a `ToolRun`: not found, timed out after writing some files, an exception after writing some files (none when it failed to start), or exit code, standard output and the files it wrote. `GetscuArgs` builds the command line.
- The file system is left out: `rglob`, `os.walk`, `read_dir`, `mkdir` and the output-directory resolution. Directory contents are parameters (a `seq` of paths, an `Entry` tree, a `DirEntry` listing), and the retriever's output directory is a set of file paths.
- File parsing is left out: `pydicom.dcmread`, `open_file` and `decode_pixel_data`. A parsed file is a `Dataset`, a map from attribute keyword to text. A parse failure is its error message.
- The pandas reports are left out: `save_report`, the summaries and `copy_chest_scans` (list_dicom_info.py:205-253; find_chest_scans.py:140-186). They only write what the modelled code computed.
- NmQuery.StorePath models one of the normalisations `pathlib` applies when it joins paths: empty components are dropped. Repeated '/', '.' components and a component starting with '/', which replaces everything before it, are not normalised; the model keeps such text as it is.
- The count of files on disk at the end of `retrieve_images` is left out (pacs_nm_retriever.py:560-564). It is logging.
- The instance-count estimate of `retrieve_images` is left out (pacs_nm_retriever.py:531-533). It is only logged. Its `int()` conversion is taken not to raise, since NumberOfStudyRelatedInstances is an integer string.
- `_study_has_nm_series` is left out. It returns True and is never called.
- The duplicated `def _retrieve_with_move` line is left out (pacs_nm_retriever.py:441-443). It is a source artefact, and the second definition is the one modelled.
- Logging throughout is left out.
- `datetime.now()` is left out. It is the `today` parameter.
- DicomDate.FormatDA writes the year unpadded, as glibc's `%Y` does. FormatIsDA is stated for four-digit years only.
- WebviewPixels.GetDicomImage does not compute the `f32` grey level `(p - min) / (max - min) * 255`; it is the `scale` parameter. The model states only that a flat image is black, and the buffer's length and layout.
- WebviewPixels.TotalPixels models the `u32` multiplication as wrapping, which is what a release build does. A debug build panics on overflow instead.
- The `PathBuf::join`/`starts_with` checks that answer Forbidden are left out (webview/src/server.rs:167-175, 281-286). Requested paths are taken as permitted, and relative paths are plain strings.
- `get_dicom_info`, `list_root_files`, `index` and the actix routing and CORS setup of server.rs are left out. They are outside the modelled core.
- The 2d-context lookup, the canvas sizing and `put_image_data` of main.rs are left out (webview/src/main.rs:11-17, 33). They are browser calls. The `ImageData` constructor is modelled by the length check of its constructor steps in the HTML standard (the "Pixel manipulation" part of the canvas element); the `u32` product in `Vec::with_capacity` only sizes the allocation and is left out.
- ChestScans.Finder keeps the keyword list as a field of each finder, while the source extends a class attribute shared by all instances. `main` creates a single finder, so the two agree there.
- `lower()`, `upper()` and `isalnum()` are modelled for ASCII only. `strip()` uses Python's full whitespace set. The Text module says which characters each covers.
- `int()` parses ASCII digits with optional sign and underscores. Non-ASCII digits are not modelled.
- DicomInfoList.FormatDate and FormatTime leave out the `except` branches (list_dicom_info.py:54-55, 69-70). Slicing a string never raises, so those branches are dead.
- DicomInfoList.AnonymizeName models the empty-name branch, but `extract_info` never reaches it: it anonymises only non-empty names.
