/** The bookkeeping of `pacs_nm_retriever.py` that does not touch the
    retriever's state: collecting C-FIND responses, the NM filter and the
    study limit, the series query, the storage path of a received object,
    the getscu command line, reading the "Completed Suboperations" count from
    its output, and the file-name repair pass over the output tree. */
module NmQuery {
  import opened Wrappers
  import opened Text
  import opened Dicom

  /** A computation that either returns a value or raises an exception that
      the surrounding Python code does not catch. */
  datatype Outcome<T> = Return(value: T) | Throw

  /** Python truthiness of an `Optional[int]` limit: None and 0 mean
      "no limit". */
  predicate Truthy(limit: Option<int>)
  {
    limit.Some? && limit.value != 0
  }

  function Min(a: int, b: int): int { if a <= b then a else b }
  function Max(a: int, b: int): int { if a >= b then a else b }

  // ---------------------------------------------------------------------
  // C-FIND responses

  /** C-FIND status codes of DICOM PS3.4 Annex C: the two "pending" codes,
      which are the responses carrying a match. */
  const StatusPending: int := 0xFF00
  const StatusPendingWarning: int := 0xFF01

  /** One C-FIND response as pynetdicom yields it: the Status of the status
      dataset (None when that dataset is empty) and the identifier dataset
      (None when the response carries none). */
  datatype Response = Response(status: Option<int>, identifier: Option<Dataset>)

  /** What one C-FIND on a fresh association yields: either the association
      is not established, or the responses received before the exchange
      ended, and whether it ended by raising an exception. */
  datatype FindReply = NotEstablished | Replies(responses: seq<Response>, raised: bool)

  /** `status and status.Status in (0xFF00, 0xFF01)` and `if identifier:`. */
  predicate Keeps(r: Response)
  {
    && r.status.Some? && (r.status.value == StatusPending || r.status.value == StatusPendingWarning)
    && r.identifier.Some? && NonEmpty(r.identifier.value)
  }

  /** The identifiers of the kept responses, in response order. */
  function Pending(rs: seq<Response>): seq<Dataset>
  {
    if rs == [] then []
    else Pending(rs[..|rs| - 1]) + (if Keeps(rs[|rs| - 1]) then [rs[|rs| - 1].identifier.value] else [])
  }

  /** Collecting distributes over consecutive runs of responses: the order of
      the responses is the order of the result. */
  lemma {:induction false} PendingAppend(a: seq<Response>, b: seq<Response>)
    ensures Pending(a + b) == Pending(a) + Pending(b)
    decreases |b|
  {
    if b == [] {
      assert a + b == a;
    } else {
      var b' := b[..|b| - 1];
      assert (a + b)[..|a + b| - 1] == a + b';
      PendingAppend(a, b');
    }
  }

  /** A dataset is collected exactly when some kept response carries it. */
  lemma {:induction false} PendingMembers(rs: seq<Response>, ds: Dataset)
    ensures ds in Pending(rs) <==> exists i :: 0 <= i < |rs| && Keeps(rs[i]) && rs[i].identifier.value == ds
  {
    if rs != [] {
      var init := rs[..|rs| - 1];
      PendingMembers(init, ds);
      if ds in Pending(init) {
        var i :| 0 <= i < |init| && Keeps(init[i]) && init[i].identifier.value == ds;
        assert rs[i] == init[i];
      }
      if exists i :: 0 <= i < |rs| && Keeps(rs[i]) && rs[i].identifier.value == ds {
        var i :| 0 <= i < |rs| && Keeps(rs[i]) && rs[i].identifier.value == ds;
        if i < |init| {
          assert init[i] == rs[i];
        }
      }
    }
  }

  /** How many of `n` candidates a loop that stops `if limit and
      len(found) >= limit` keeps: a truthy limit below 1 still lets the
      first one in. */
  function Capped(limit: Option<int>, n: nat): (k: nat)
    ensures k <= n
    ensures n > 0 ==> k > 0
    ensures k < n ==> Truthy(limit) && k >= limit.value
    ensures Truthy(limit) && k >= 2 ==> k - 1 < limit.value
  {
    if Truthy(limit) then Min(n, Max(limit.value, 1)) else n
  }

  /** The collection loop of `find_nm_series` (and, without a limit, of
      `find_nm_studies`): kept identifiers in order, stopping as soon as a
      truthy limit is reached. */
  method CollectPending(rs: seq<Response>, limit: Option<int>) returns (ids: seq<Dataset>)
    ensures ids == Pending(rs)[..Capped(limit, |Pending(rs)|)]
    ensures limit.Some? && limit.value > 0 ==> |ids| <= limit.value
    ensures !Truthy(limit) ==> ids == Pending(rs)
  {
    ids := [];
    var i := 0;
    while i < |rs|
      invariant 0 <= i <= |rs|
      invariant ids == Pending(rs[..i])
      invariant Truthy(limit) ==> |ids| < Max(limit.value, 1)
    {
      var r := rs[i];
      assert rs[..i + 1][..i] == rs[..i];
      if Keeps(r) {
        ids := ids + [r.identifier.value];
        if Truthy(limit) && |ids| >= limit.value {
          PendingAppend(rs[..i + 1], rs[i + 1..]);
          assert rs[..i + 1] + rs[i + 1..] == rs;
          return;
        }
      }
      i := i + 1;
    }
    assert rs[..i] == rs;
  }

  /** `find_nm_series`: an association that is not established gives no
      series; otherwise the responses are collected, and what was collected
      before an exception is still returned. */
  method FindNmSeries(reply: FindReply, limit: Option<int>) returns (series: seq<Dataset>)
    ensures reply.NotEstablished? ==> series == []
    ensures reply.Replies? ==> series == Pending(reply.responses)[..Capped(limit, |Pending(reply.responses)|)]
  {
    series := [];
    if reply.Replies? {
      series := CollectPending(reply.responses, limit);
    }
  }

  // ---------------------------------------------------------------------
  // The NM filter and the study limit of `find_nm_studies`

  /** The target modality code, nuclear medicine. */
  const NM: string := "NM"

  /** `modalities = getattr(study, 'ModalitiesInStudy', None)`,
      `if modalities:` and `'NM' in str(modalities)`. */
  predicate IsNm(study: Dataset)
  {
    "ModalitiesInStudy" in study && study["ModalitiesInStudy"] != ""
    && Contains(study["ModalitiesInStudy"], NM)
  }

  /** All NM studies, in discovery order. */
  function NmStudies(all: seq<Dataset>): seq<Dataset>
  {
    if all == [] then []
    else NmStudies(all[..|all| - 1]) + (if IsNm(all[|all| - 1]) then [all[|all| - 1]] else [])
  }

  lemma {:induction false} NmStudiesAppend(a: seq<Dataset>, b: seq<Dataset>)
    ensures NmStudies(a + b) == NmStudies(a) + NmStudies(b)
    decreases |b|
  {
    if b == [] {
      assert a + b == a;
    } else {
      var b' := b[..|b| - 1];
      assert (a + b)[..|a + b| - 1] == a + b';
      NmStudiesAppend(a, b');
    }
  }

  /** The filter keeps exactly the NM studies. */
  lemma {:induction false} NmStudiesMembers(all: seq<Dataset>, s: Dataset)
    ensures s in NmStudies(all) <==> s in all && IsNm(s)
  {
    if all != [] {
      var init := all[..|all| - 1];
      NmStudiesMembers(init, s);
      assert all == init + [all[|all| - 1]];
    }
  }

  /** Python's `s[:n]`, negative `n` counting from the end. */
  function PySliceTo(s: seq<Dataset>, n: int): (r: seq<Dataset>)
    ensures |r| <= |s| && r == s[..|r|]
  {
    if n >= 0 then s[..Min(n, |s|)] else s[..Max(0, |s| + n)]
  }

  /** The studies the filter loop looks at before it stops on the limit. */
  function Examined(all: seq<Dataset>, limit: Option<int>): seq<Dataset>
  {
    NmStudies(all)[..Capped(limit, |NmStudies(all)|)]
  }

  /** What the filter part of `find_nm_studies` produces from the collected
      studies: the NM studies up to the limit, `nm_studies[:limit]`, or an
      AttributeError when one of the NM studies it logs has no
      StudyInstanceUID. */
  function NmSelection(all: seq<Dataset>, limit: Option<int>): Outcome<seq<Dataset>>
  {
    var seen := Examined(all, limit);
    if exists k :: 0 <= k < |seen| && "StudyInstanceUID" !in seen[k] then Throw
    else Return(if Truthy(limit) then PySliceTo(seen, limit.value) else seen)
  }

  /** With no limit (None or 0) every NM study is returned. */
  lemma NmSelectionUnlimited(all: seq<Dataset>, limit: Option<int>)
    requires !Truthy(limit)
    ensures NmSelection(all, limit).Return? ==> NmSelection(all, limit).value == NmStudies(all)
  {
  }

  /** With a positive limit the result is the first `limit` NM studies, or
      all of them when there are fewer. */
  lemma NmSelectionLimited(all: seq<Dataset>, n: int)
    requires n > 0
    ensures var out := NmSelection(all, Some(n));
      out.Return? ==>
        && |out.value| == Min(n, |NmStudies(all)|)
        && out.value == NmStudies(all)[..|out.value|]
  {
  }

  /** A negative limit stops the loop after the first NM study and then
      slices it away: nothing is returned. */
  lemma NmSelectionNegative(all: seq<Dataset>, n: int)
    requires n < 0
    ensures NmSelection(all, Some(n)).Return? ==> NmSelection(all, Some(n)).value == []
  {
  }

  /** Every returned study is an NM study of the input, carries a
      StudyInstanceUID, and the result is in discovery order (a prefix of
      the filtered list). An exception is raised exactly when a study the
      loop examined lacks a StudyInstanceUID. */
  lemma NmSelectionSound(all: seq<Dataset>, limit: Option<int>)
    ensures var out := NmSelection(all, limit);
      && (out.Throw? <==> exists k :: 0 <= k < |Examined(all, limit)| && "StudyInstanceUID" !in Examined(all, limit)[k])
      && (out.Return? ==>
           && out.value == NmStudies(all)[..|out.value|]
           && forall k :: 0 <= k < |out.value| ==>
                out.value[k] in all && IsNm(out.value[k]) && "StudyInstanceUID" in out.value[k])
  {
    var out := NmSelection(all, limit);
    if out.Return? {
      var seen := Examined(all, limit);
      forall k | 0 <= k < |out.value|
        ensures out.value[k] in all && IsNm(out.value[k]) && "StudyInstanceUID" in out.value[k]
      {
        assert out.value[k] == seen[k] == NmStudies(all)[k];
        NmStudiesMembers(all, out.value[k]);
      }
    }
  }

  /** The NM studies of a prefix of the input come first among all NM
      studies. */
  lemma NmStudiesPrefix(all: seq<Dataset>, i: nat)
    requires i <= |all|
    ensures |NmStudies(all[..i])| <= |NmStudies(all)|
    ensures NmStudies(all)[..|NmStudies(all[..i])|] == NmStudies(all[..i])
  {
    NmStudiesAppend(all[..i], all[i..]);
    assert all[..i] + all[i..] == all;
  }

  /** The filter raises when the next NM study it examines has no UID. */
  lemma SelectionThrows(all: seq<Dataset>, i: nat, limit: Option<int>)
    requires i < |all| && IsNm(all[i]) && "StudyInstanceUID" !in all[i]
    requires Truthy(limit) ==> |NmStudies(all[..i])| < Max(limit.value, 1)
    ensures NmSelection(all, limit) == Throw
  {
    var nm := NmStudies(all[..i]);
    assert all[..i + 1][..i] == all[..i];
    assert NmStudies(all[..i + 1]) == nm + [all[i]];
    NmStudiesPrefix(all, i + 1);
    assert NmStudies(all)[|nm|] == all[i];
    assert Examined(all, limit)[|nm|] == all[i];
  }

  /** The filter stops once a truthy limit is reached. */
  lemma SelectionStops(all: seq<Dataset>, i: nat, limit: Option<int>)
    requires i <= |all| && Truthy(limit)
    requires var nm := NmStudies(all[..i]);
      |nm| >= limit.value && |nm| >= 1 && |nm| - 1 < Max(limit.value, 1)
      && forall k :: 0 <= k < |nm| ==> "StudyInstanceUID" in nm[k]
    ensures NmSelection(all, limit) == Return(PySliceTo(NmStudies(all[..i]), limit.value))
  {
    NmStudiesPrefix(all, i);
    assert Examined(all, limit) == NmStudies(all[..i]);
  }

  /** The filter runs to the end when the limit is never reached. */
  lemma SelectionCompletes(all: seq<Dataset>, limit: Option<int>)
    requires Truthy(limit) ==> |NmStudies(all)| < Max(limit.value, 1)
    requires forall k :: 0 <= k < |NmStudies(all)| ==> "StudyInstanceUID" in NmStudies(all)[k]
    ensures NmSelection(all, limit)
         == Return(if Truthy(limit) then PySliceTo(NmStudies(all), limit.value) else NmStudies(all))
  {
    assert Examined(all, limit) == NmStudies(all);
  }

  /** The filter loop of `find_nm_studies` over the collected studies. */
  method FilterNmStudies(all: seq<Dataset>, limit: Option<int>) returns (out: Outcome<seq<Dataset>>)
    ensures out == NmSelection(all, limit)
  {
    var nm: seq<Dataset> := [];
    var i := 0;
    while i < |all|
      invariant 0 <= i <= |all|
      invariant nm == NmStudies(all[..i])
      invariant forall k :: 0 <= k < |nm| ==> "StudyInstanceUID" in nm[k]
      invariant Truthy(limit) ==> |nm| < Max(limit.value, 1)
    {
      var study := all[i];
      assert all[..i + 1][..i] == all[..i];
      var modalities := Attr(study, "ModalitiesInStudy", "");
      if modalities != "" && Contains(modalities, NM) {
        if "StudyInstanceUID" !in study {
          SelectionThrows(all, i, limit);
          return Throw;
        }
        nm := nm + [study];
        if Truthy(limit) && |nm| >= limit.value {
          SelectionStops(all, i + 1, limit);
          return Return(PySliceTo(nm, limit.value));
        }
      }
      i := i + 1;
    }
    assert all[..i] == all;
    SelectionCompletes(all, limit);
    return Return(if Truthy(limit) then PySliceTo(nm, limit.value) else nm);
  }

  /** `find_nm_studies` after the query has been sent: a failed association
      or an exception during the exchange gives an empty list; otherwise the
      pending identifiers are filtered. */
  method FindNmStudies(reply: FindReply, limit: Option<int>) returns (out: Outcome<seq<Dataset>>)
    ensures reply.NotEstablished? || reply.raised ==> out == Return([])
    ensures reply.Replies? && !reply.raised ==> out == NmSelection(Pending(reply.responses), limit)
  {
    if reply.NotEstablished? || reply.raised {
      return Return([]);
    }
    var all := CollectPending(reply.responses, None);
    if all == [] {
      return Return([]);
    }
    out := FilterNmStudies(all, limit);
  }

  // ---------------------------------------------------------------------
  // Query datasets

  /** The STUDY-level C-FIND identifier; the empty values ask the archive to
      return those attributes. */
  function StudyQuery(studyDate: string): Dataset
  {
    map["QueryRetrieveLevel" := "STUDY", "StudyDate" := studyDate, "StudyInstanceUID" := "",
        "PatientID" := "", "ModalitiesInStudy" := ""]
  }

  /** The SERIES-level C-FIND identifier of `find_nm_series`. */
  function SeriesQuery(studyUid: string): Dataset
  {
    map["QueryRetrieveLevel" := "SERIES", "StudyInstanceUID" := studyUid, "Modality" := NM,
        "SeriesInstanceUID" := "", "SeriesDescription" := "", "SeriesNumber" := "",
        "NumberOfSeriesRelatedInstances" := ""]
  }

  /** The SERIES-level identifier `retrieve_study` retrieves one series with. */
  function RetrieveQuery(studyUid: string, seriesUid: string): (q: Dataset)
    ensures q.Keys == {"QueryRetrieveLevel", "StudyInstanceUID", "SeriesInstanceUID"}
    ensures q["QueryRetrieveLevel"] == "SERIES" && q["StudyInstanceUID"] == studyUid
    ensures q["SeriesInstanceUID"] == seriesUid
  {
    map["QueryRetrieveLevel" := "SERIES", "StudyInstanceUID" := studyUid, "SeriesInstanceUID" := seriesUid]
  }

  // ---------------------------------------------------------------------
  // Storage of a received object (`handle_store`)

  /** C-STORE status codes of DICOM PS3.4 Annex B. */
  const StoreSuccess: int := 0x0000
  const StoreFailure: int := 0xC000

  predicate IdChar(c: char)
  {
    IsAlnum(c) || c == '-' || c == '_'
  }

  /** `"".join(c for c in patient_id if c.isalnum() or c in ('-', '_'))`. */
  function SanitizeId(s: string): string
  {
    if s == [] then []
    else (if IdChar(s[0]) then [s[0]] else []) + SanitizeId(s[1..])
  }

  /** `a` is `b` with some characters left out. */
  predicate IsSubsequence(a: string, b: string)
    decreases |b|
  {
    if a == [] then true
    else if b == [] then false
    else if a[0] == b[0] then IsSubsequence(a[1..], b[1..])
    else IsSubsequence(a, b[1..])
  }

  /** The sanitised id holds only alphanumerics, '-' and '_'. */
  lemma {:induction false} SanitizeIdChars(s: string)
    ensures forall k :: 0 <= k < |SanitizeId(s)| ==> IdChar(SanitizeId(s)[k])
  {
    if s != [] {
      SanitizeIdChars(s[1..]);
      var rest := SanitizeId(s[1..]);
      if IdChar(s[0]) {
        assert SanitizeId(s) == [s[0]] + rest;
      }
    }
  }

  /** The sanitised id keeps the original order: it is the original with
      some characters left out. */
  lemma {:induction false} SanitizeIdOrder(s: string)
    ensures IsSubsequence(SanitizeId(s), s)
  {
    if s != [] {
      SanitizeIdOrder(s[1..]);
      var rest := SanitizeId(s[1..]);
      if IdChar(s[0]) {
        assert SanitizeId(s) == [s[0]] + rest;
        assert SanitizeId(s)[1..] == rest;
      } else {
        assert SanitizeId(s) == rest;
        SubsequenceSkip(rest, s);
      }
    }
  }

  /** The sanitised id drops no alphanumeric, '-' or '_': it keeps every
      occurrence of each such character. */
  lemma {:induction false} SanitizeIdKeeps(s: string)
    ensures forall c :: IdChar(c) ==> multiset(SanitizeId(s))[c] == multiset(s)[c]
  {
    if s != [] {
      SanitizeIdKeeps(s[1..]);
      var rest := SanitizeId(s[1..]);
      assert s == [s[0]] + s[1..];
      if IdChar(s[0]) {
        assert SanitizeId(s) == [s[0]] + rest;
      }
    }
  }

  lemma {:induction false} SubsequenceSkip(a: string, b: string)
    requires |b| > 0 && IsSubsequence(a, b[1..])
    ensures IsSubsequence(a, b)
    decreases |b|, |a|
  {
    if a != [] && a[0] == b[0] {
      SubsequenceDropHead(a, b[1..]);
    }
  }

  lemma {:induction false} SubsequenceDropHead(a: string, b: string)
    requires a != [] && IsSubsequence(a, b)
    ensures IsSubsequence(a[1..], b)
    decreases |b|, |a|
  {
    if a[0] == b[0] {
      SubsequenceSkip(a[1..], b);
    } else {
      SubsequenceDropHead(a, b[1..]);
      SubsequenceSkip(a[1..], b);
    }
  }

  /** `output_dir / patient_id / study_uid / series_uid / f"{sop_uid}.dcm"`,
      with the defaults `handle_store` takes for absent attributes. Joining
      paths drops the empty components. */
  function StorePath(outputDir: string, ds: Dataset): string
  {
    Join(StoreSegments(outputDir, ds), "/")
  }

  /** The five components of the storage path, in order. */
  function StoreComponents(outputDir: string, ds: Dataset): seq<string>
  {
    [outputDir,
     SanitizeId(Attr(ds, "PatientID", "UNKNOWN")),
     Attr(ds, "StudyInstanceUID", "UNKNOWN"),
     Attr(ds, "SeriesInstanceUID", "UNKNOWN"),
     Attr(ds, "SOPInstanceUID", "UNKNOWN") + Suffix]
  }

  /** The components the storage path is made of: the non-empty ones. */
  function StoreSegments(outputDir: string, ds: Dataset): seq<string>
  {
    WithoutEmpty(StoreComponents(outputDir, ds))
  }

  /** The non-empty strings of `parts`, in order. */
  function WithoutEmpty(parts: seq<string>): (r: seq<string>)
    ensures |r| <= |parts|
    ensures forall k :: 0 <= k < |r| ==> r[k] != ""
    ensures forall x :: x in r <==> x in parts && x != ""
    ensures parts != [] && parts[|parts| - 1] != "" ==> r != [] && r[|r| - 1] == parts[|parts| - 1]
  {
    if parts == [] then []
    else
      var rest := WithoutEmpty(parts[1..]);
      assert forall x :: x in parts <==> x == parts[0] || x in parts[1..];
      (if parts[0] == "" then [] else [parts[0]]) + rest
  }

  /** A sequence without empty strings is its own non-empty part. */
  lemma {:induction false} WithoutEmptyKeeps(parts: seq<string>)
    requires forall k :: 0 <= k < |parts| ==> parts[k] != ""
    ensures WithoutEmpty(parts) == parts
  {
    if parts != [] {
      WithoutEmptyKeeps(parts[1..]);
    }
  }

  /** The stored file has the canonical suffix; the path is made of the
      non-empty components, in order; and when none of them contains '/'
      the path splits back into exactly those components. */
  lemma StorePathLayout(outputDir: string, ds: Dataset)
    ensures EndsWith(StorePath(outputDir, ds), Suffix)
    ensures var segs := StoreSegments(outputDir, ds);
      && segs != [] && segs[|segs| - 1] == Attr(ds, "SOPInstanceUID", "UNKNOWN") + Suffix
      && (forall x :: x in segs <==> x in StoreComponents(outputDir, ds) && x != "")
    ensures var segs := StoreSegments(outputDir, ds);
      (forall k :: 0 <= k < |segs| ==> '/' !in segs[k]) ==> Split(StorePath(outputDir, ds), '/') == segs
  {
    var segs := StoreSegments(outputDir, ds);
    SuffixAdded(Attr(ds, "SOPInstanceUID", "UNKNOWN"));
    EndsWithJoin(segs, "/", Suffix);
    if forall k :: 0 <= k < |segs| ==> '/' !in segs[k] {
      SplitJoin(segs, '/');
    }
  }

  /** When every component is non-empty, the path is all five of them. */
  lemma StorePathFull(outputDir: string, ds: Dataset)
    requires outputDir != "" && SanitizeId(Attr(ds, "PatientID", "UNKNOWN")) != ""
    requires Attr(ds, "StudyInstanceUID", "UNKNOWN") != "" && Attr(ds, "SeriesInstanceUID", "UNKNOWN") != ""
    ensures StoreSegments(outputDir, ds) == StoreComponents(outputDir, ds)
  {
    WithoutEmptyKeeps(StoreComponents(outputDir, ds));
  }

  // ---------------------------------------------------------------------
  // getscu

  /** The outcome of running getscu: not on the PATH, killed at the
      timeout after having written some files under the output directory,
      an exception (raised before getscu started, with nothing written, or
      after it ran, for instance while decoding its output, leaving the
      files it wrote), or exited with a code and standard output after
      having written some files. */
  datatype ToolRun =
    | NotFound
    | TimedOut(written: set<string>)
    | Failed(written: set<string>)
    | Exited(code: int, stdout: string, written: set<string>)

  /** The getscu command line of `_retrieve_with_get`. */
  function GetscuArgs(localAet: string, pacsAet: string, host: string, port: int,
                      ds: Dataset, outputDir: string): (args: seq<string>)
    requires "QueryRetrieveLevel" in ds && "StudyInstanceUID" in ds
  {
    var level := ds["QueryRetrieveLevel"];
    ["getscu", "-v", "-S", "-aet", localAet, "-aec", pacsAet, host, ShowInt(port),
     "-k", "QueryRetrieveLevel=" + level, "-k", "StudyInstanceUID=" + ds["StudyInstanceUID"]]
    + (if level == "SERIES" && "SeriesInstanceUID" in ds
       then ["-k", "SeriesInstanceUID=" + ds["SeriesInstanceUID"]] else [])
    + ["-od", outputDir]
  }

  const CompletedMarker: string := "Completed Suboperations"

  /** The count read from one output line:
      `int(line.split(':')[1].strip())` on a line containing the marker,
      None where that raises (no ':' or not an integer) or the line has no
      marker. */
  function LineCount(line: string): Option<int>
  {
    if !Contains(line, CompletedMarker) then None
    else
      var parts := Split(line, ':');
      if |parts| < 2 then None else ParseInt(Strip(parts[1]))
  }

  /** The counts of all lines, line by line. */
  function Counts(lines: seq<string>): (cs: seq<Option<int>>)
    ensures |cs| == |lines| && forall j :: 0 <= j < |lines| ==> cs[j] == LineCount(lines[j])
  {
    seq(|lines|, j requires 0 <= j < |lines| => LineCount(lines[j]))
  }

  /** The last value present in `cs`. */
  function LastSome(cs: seq<Option<int>>): Option<int>
  {
    if cs == [] then None
    else if cs[|cs| - 1].Some? then cs[|cs| - 1]
    else LastSome(cs[..|cs| - 1])
  }

  /** `LastSome` is None exactly when no value is present. */
  lemma {:induction false} LastSomeNone(cs: seq<Option<int>>)
    ensures LastSome(cs).None? <==> forall j :: 0 <= j < |cs| ==> cs[j].None?
  {
    if cs != [] {
      var init := cs[..|cs| - 1];
      LastSomeNone(init);
      assert forall j :: 0 <= j < |init| ==> init[j] == cs[j];
    }
  }

  /** `LastSome` picks a present value after which no value is present. */
  lemma {:induction false} LastSomeLatest(cs: seq<Option<int>>)
    requires LastSome(cs).Some?
    ensures exists k :: 0 <= k < |cs| && cs[k] == LastSome(cs) && forall j :: k < j < |cs| ==> cs[j].None?
  {
    var init := cs[..|cs| - 1];
    if cs[|cs| - 1].None? {
      LastSomeLatest(init);
      var k :| 0 <= k < |init| && init[k] == LastSome(init) && forall j :: k < j < |init| ==> init[j].None?;
      assert cs[k] == LastSome(cs);
    } else {
      assert cs[|cs| - 1] == LastSome(cs);
    }
  }

  /** The count of the last line that yields one. */
  function LastCount(lines: seq<string>): Option<int>
  {
    LastSome(Counts(lines))
  }

  /** `LastCount` picks the line with a count after which no line has one;
      it is None exactly when no line has a count. */
  lemma LastCountSpec(lines: seq<string>)
    ensures LastCount(lines).None? <==> forall j :: 0 <= j < |lines| ==> LineCount(lines[j]).None?
    ensures LastCount(lines).Some? ==>
      exists k :: 0 <= k < |lines| && LineCount(lines[k]) == LastCount(lines)
        && forall j :: k < j < |lines| ==> LineCount(lines[j]).None?
  {
    var cs := Counts(lines);
    LastSomeNone(cs);
    if LastCount(lines).Some? {
      LastSomeLatest(cs);
      var k :| 0 <= k < |cs| && cs[k] == LastSome(cs) && forall j :: k < j < |cs| ==> cs[j].None?;
      assert LineCount(lines[k]) == LastCount(lines);
    }
  }

  /** The number of images getscu reports: the last parseable count, 0 when
      there is none. */
  function CompletedCount(stdout: string): int
  {
    LastCount(Split(stdout, '\n')).GetOr(0)
  }

  /** The parse loop of `_retrieve_with_get`. */
  method ParseCompleted(stdout: string) returns (completed: int)
    ensures completed == CompletedCount(stdout)
  {
    var lines := Split(stdout, '\n');
    completed := 0;
    var i := 0;
    while i < |lines|
      invariant 0 <= i <= |lines|
      invariant completed == LastSome(Counts(lines)[..i]).GetOr(0)
    {
      assert Counts(lines)[..i + 1][..i] == Counts(lines)[..i];
      var line := lines[i];
      if Contains(line, CompletedMarker) {
        var parts := Split(line, ':');
        if |parts| >= 2 {
          var v := ParseInt(Strip(parts[1]));
          if v.Some? {
            completed := v.value;
          }
        }
      }
      i := i + 1;
    }
    assert Counts(lines)[..i] == Counts(lines);
  }

  /** A line whose only ':' follows a text containing the marker yields
      the count written after it. */
  lemma CountLineParses(prefix: string, n: int)
    requires ':' !in prefix && Contains(prefix, CompletedMarker)
    ensures LineCount(prefix + ": " + ShowInt(n)) == Some(n)
  {
    var tail := " " + ShowInt(n);
    var rest := ":" + tail;
    var line := prefix + rest;
    assert prefix + ": " + ShowInt(n) == line;
    ContainsGrow(prefix, rest, CompletedMarker);
    StripShowInt(n);
    SplitCountLine(prefix, tail);
    ParseShowInt(n);
  }

  /** A line whose first ':' comes before the marker, as a log prefix such
      as "I: " puts it, yields no count: the text between the first two ':'
      holds the marker's letters, which `int` refuses. */
  lemma PrefixedCountLineFails(prefix: string, mid: string, rest: string)
    requires ':' !in prefix && ':' !in mid && Contains(mid, CompletedMarker)
    ensures LineCount(prefix + ":" + mid + rest) == None
  {
    assert prefix + ":" + mid + rest == prefix + [':'] + (mid + rest);
    SplitAt(prefix, ':', mid + rest);
    SplitFirstPart(mid, rest, ':');
    MarkerRefused(Split(mid + rest, ':')[0], mid);
  }

  lemma MarkerRefused(text: string, mid: string)
    requires |text| >= |mid| && text[..|mid|] == mid && Contains(mid, CompletedMarker)
    ensures ParseInt(Strip(text)) == None
  {
    var i :| OccursAt(mid, CompletedMarker, i);
    assert mid[i..i + |CompletedMarker|][0] == 'C';
    assert text[..|mid|][i] == 'C';
    ParseIntRefuses(text, i);
  }

  lemma SplitCountLine(prefix: string, tail: string)
    requires ':' !in prefix && ':' !in tail
    ensures Split(prefix + (":" + tail), ':') == [prefix, tail]
  {
    assert Join([prefix, tail], [':']) == prefix + (":" + tail);
    SplitJoin([prefix, tail], ':');
  }

  lemma ShowIntChars(n: int)
    ensures var s := ShowInt(n);
      |s| > 0 && (forall k :: 0 <= k < |s| ==> IsDigit(s[k]) || s[k] == '-') && IsDigit(s[|s| - 1])
  {
    var m: nat := if n < 0 then -n else n;
    ShowNatDigits(m);
  }

  lemma StripShowInt(n: int)
    ensures ':' !in " " + ShowInt(n)
    ensures Strip(" " + ShowInt(n)) == ShowInt(n)
  {
    var t := ShowInt(n);
    ShowIntChars(n);
    var s := " " + t;
    assert forall k :: 1 <= k < |s| ==> s[k] == t[k - 1];
    assert s[1..] == t;
    assert LeadingSpaces(s[1..]) == 0;
    assert LeadingSpaces(s) == 1;
    assert TrailingSpaces(t) == 0;
  }

  // ---------------------------------------------------------------------
  // The file-name repair pass

  const Suffix: string := ".dcm"

  /** The files under the output directory after the rename pass: every
      file without the suffix gets it, except those whose rename fails
      (`fails`), which keep their names. A renamed file replaces a file of
      the target name, as a rename does on POSIX. */
  function Renamed(files: set<string>, fails: set<string>): set<string>
  {
    (set f | f in files && (EndsWith(f, Suffix) || f in fails))
    + (set f | f in files && !EndsWith(f, Suffix) && f !in fails :: f + Suffix)
  }

  lemma SuffixAdded(f: string)
    ensures EndsWith(f + Suffix, Suffix)
  {
    assert (f + Suffix)[|f + Suffix| - |Suffix|..] == Suffix;
  }

  /** After the pass every file has the suffix unless its rename failed;
      each file lacking it whose rename succeeds reappears with it, every
      file that had it or whose rename failed stays, and nothing else
      appears. */
  lemma RenamedSpec(files: set<string>, fails: set<string>)
    ensures forall f :: f in Renamed(files, fails) ==> EndsWith(f, Suffix) || (f in files && f in fails)
    ensures forall f :: f in Renamed(files, fails) ==>
      (f in files && (EndsWith(f, Suffix) || f in fails))
      || exists g :: g in files && !EndsWith(g, Suffix) && g !in fails && f == g + Suffix
    ensures forall f :: f in files && !EndsWith(f, Suffix) && f !in fails ==> f + Suffix in Renamed(files, fails)
    ensures forall f :: f in files && (EndsWith(f, Suffix) || f in fails) ==> f in Renamed(files, fails)
  {
    forall f | f in files && !EndsWith(f, Suffix) && f !in fails
      ensures EndsWith(f + Suffix, Suffix)
    {
      SuffixAdded(f);
    }
  }

  /** A second pass renames nothing: the repair is idempotent. */
  lemma RenamedIdempotent(files: set<string>, fails: set<string>)
    ensures Renamed(Renamed(files, fails), fails) == Renamed(files, fails)
  {
    RenamedSpec(files, fails);
    var once := Renamed(files, fails);
    assert forall f :: f in once && !EndsWith(f, Suffix) ==> f in fails;
  }
}
