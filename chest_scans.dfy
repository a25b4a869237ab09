/** The chest-scan finder: a file is a chest or thorax scintigraphy when one
    of the keywords occurs in its lowercased BodyPartExamined,
    SeriesDescription or StudyDescription. The report lists the matching
    files in discovery order, with the fields that matched. Reading a file
    is a parameter, as for the information lister. */
module ChestScans {
  import opened Wrappers
  import opened Text
  import opened Dicom

  /** The built-in keywords, English and French, all lower case. */
  const DefaultKeywords: seq<string> := [
    "chest", "thorax", "lung", "pulmonary",
    "ventilation", "perfusion", "v/q", "vq",
    "heart", "myocardial", "cardiac", "coronary",
    "poumon", "thoracique", "cardiaque"]

  /** Some keyword is a substring of `text`. */
  predicate AnyKeyword(keywords: seq<string>, text: string)
  {
    exists k :: 0 <= k < |keywords| && Contains(text, keywords[k])
  }

  /** One row of the report. */
  datatype ChestScan = ChestScan(
    file: string,
    patientId: string,
    studyUid: string,
    seriesUid: string,
    seriesNumber: string,
    modality: string,
    bodyPart: string,
    seriesDesc: string,
    studyDesc: string,
    matchedOn: string,
    matchedText: string)

  const BodyPartField: string := "BodyPartExamined"
  const SeriesField: string := "SeriesDescription"
  const StudyField: string := "StudyDescription"

  /** The place of a field name in the order the fields are examined. */
  function Rank(field: string): int
  {
    if field == BodyPartField then 0 else if field == SeriesField then 1 else if field == StudyField then 2 else 3
  }

  /** The names of the fields that matched, for `matched_on`. */
  function MatchedFields(keywords: seq<string>, body: string, series: string, study: string): (fs: seq<string>)
    ensures fs == [] <==> !AnyKeyword(keywords, body) && !AnyKeyword(keywords, series) && !AnyKeyword(keywords, study)
  {
    (if AnyKeyword(keywords, body) then [BodyPartField] else [])
    + (if AnyKeyword(keywords, series) then [SeriesField] else [])
    + (if AnyKeyword(keywords, study) then [StudyField] else [])
  }

  /** Every field is named at most once, and in the order body part,
      series description, study description; a field is named exactly
      when one of the keywords occurs in it. */
  lemma MatchedFieldsOrdered(keywords: seq<string>, body: string, series: string, study: string)
    ensures var fs := MatchedFields(keywords, body, series, study);
      && |fs| <= 3
      && (forall i, j :: 0 <= i < j < |fs| ==> Rank(fs[i]) < Rank(fs[j]))
      && (forall i :: 0 <= i < |fs| ==> Rank(fs[i]) < 3)
      && (BodyPartField in fs <==> AnyKeyword(keywords, body))
      && (SeriesField in fs <==> AnyKeyword(keywords, series))
      && (StudyField in fs <==> AnyKeyword(keywords, study))
  {
  }

  /** The matching field values, for `matched_text`. */
  function MatchedTexts(keywords: seq<string>, body: string, series: string, study: string): (ts: seq<string>)
    ensures |ts| == |MatchedFields(keywords, body, series, study)|
  {
    (if AnyKeyword(keywords, body) then ["BodyPart: " + body] else [])
    + (if AnyKeyword(keywords, series) then ["Series: " + series] else [])
    + (if AnyKeyword(keywords, study) then ["Study: " + study] else [])
  }

  /** The three compared fields: `str(getattr(ds, key, '')).lower()`. */
  function BodyOf(ds: Dataset): string { Lower(Attr(ds, "BodyPartExamined", "")) }
  function SeriesOf(ds: Dataset): string { Lower(Attr(ds, "SeriesDescription", "")) }
  function StudyOf(ds: Dataset): string { Lower(Attr(ds, "StudyDescription", "")) }

  /** What `is_chest_scan` returns for one file. */
  function ChestMatch(path: string, read: ReadOutcome, keywords: seq<string>): (r: Option<ChestScan>)
    ensures r.None? <==>
      read.ReadError? ||
      (!AnyKeyword(keywords, BodyOf(read.ds)) && !AnyKeyword(keywords, SeriesOf(read.ds))
       && !AnyKeyword(keywords, StudyOf(read.ds)))
    ensures r.Some? ==> r.value.file == path
  {
    match read
    case ReadError(_) => None
    case Parsed(ds) =>
      var fs := MatchedFields(keywords, BodyOf(ds), SeriesOf(ds), StudyOf(ds));
      if fs == [] then None
      else
        Some(ChestScan(path, Attr(ds, "PatientID", "UNKNOWN"), Attr(ds, "StudyInstanceUID", "UNKNOWN"),
                       Attr(ds, "SeriesInstanceUID", "UNKNOWN"), Attr(ds, "SeriesNumber", ""),
                       Upper(Attr(ds, "Modality", "")), BodyOf(ds), SeriesOf(ds), StudyOf(ds),
                       Join(fs, ", "),
                       Join(MatchedTexts(keywords, BodyOf(ds), SeriesOf(ds), StudyOf(ds)), " | ")))
  }

  /** A reported row holds the three compared fields in lower case, the
      modality in upper case, the identifiers with their defaults, and the
      names and the values of the matched fields joined by ", " and " | ",
      one value per name. */
  lemma ChestMatchRow(path: string, ds: Dataset, keywords: seq<string>)
    requires ChestMatch(path, Parsed(ds), keywords).Some?
    ensures var c := ChestMatch(path, Parsed(ds), keywords).value;
      var fs := MatchedFields(keywords, c.bodyPart, c.seriesDesc, c.studyDesc);
      var ts := MatchedTexts(keywords, c.bodyPart, c.seriesDesc, c.studyDesc);
      && IsLowerCase(c.bodyPart) && IsLowerCase(c.seriesDesc) && IsLowerCase(c.studyDesc)
      && IsUpperCase(c.modality)
      && c.patientId == Attr(ds, "PatientID", "UNKNOWN")
      && c.studyUid == Attr(ds, "StudyInstanceUID", "UNKNOWN")
      && c.seriesUid == Attr(ds, "SeriesInstanceUID", "UNKNOWN")
      && fs != [] && |ts| == |fs|
      && c.matchedOn == Join(fs, ", ")
      && c.matchedText == Join(ts, " | ")
  {
    LowerIsLowerCase(Attr(ds, "BodyPartExamined", ""));
    LowerIsLowerCase(Attr(ds, "SeriesDescription", ""));
    LowerIsLowerCase(Attr(ds, "StudyDescription", ""));
    UpperIsUpperCase(Attr(ds, "Modality", ""));
  }

  /** The matches among `paths`, kept in discovery order. */
  function Matches(paths: seq<string>, read: string -> ReadOutcome, keywords: seq<string>): (ms: seq<ChestScan>)
    ensures |ms| <= |paths|
  {
    if |paths| == 0 then []
    else
      var last := paths[|paths| - 1];
      Matches(paths[..|paths| - 1], read, keywords) + RowOf(last, read, keywords)
  }

  /** The report row of one file, if it matches. */
  function RowOf(path: string, read: string -> ReadOutcome, keywords: seq<string>): seq<ChestScan>
  {
    match ChestMatch(path, read(path), keywords) case Some(c) => [c] case None => []
  }

  /** The row (or no row) of the `i`-th file follows the rows of the files
      before it. */
  lemma MatchesUnfold(paths: seq<string>, read: string -> ReadOutcome, keywords: seq<string>, i: int)
    requires 0 <= i < |paths|
    ensures Matches(paths[..i + 1], read, keywords)
         == Matches(paths[..i], read, keywords) + RowOf(paths[i], read, keywords)
  {
    assert paths[..i + 1][..i] == paths[..i];
  }

  /** Each row of the report comes from a discovered file that matches. */
  lemma {:induction false} MatchesSound(paths: seq<string>, read: string -> ReadOutcome, keywords: seq<string>)
    ensures forall c :: c in Matches(paths, read, keywords) ==>
      exists k :: 0 <= k < |paths| && ChestMatch(paths[k], read(paths[k]), keywords) == Some(c)
  {
    if |paths| > 0 {
      var init := paths[..|paths| - 1];
      var last := paths[|paths| - 1];
      MatchesSound(init, read, keywords);
      forall c | c in Matches(paths, read, keywords)
        ensures exists k :: 0 <= k < |paths| && ChestMatch(paths[k], read(paths[k]), keywords) == Some(c)
      {
        if c in Matches(init, read, keywords) {
          var k :| 0 <= k < |init| && ChestMatch(init[k], read(init[k]), keywords) == Some(c);
          assert init[k] == paths[k];
        } else {
          assert ChestMatch(last, read(last), keywords) == Some(c);
        }
      }
    }
  }

  /** The row of the `k`-th file is part of the report. */
  lemma {:induction false} RowInMatches(paths: seq<string>, read: string -> ReadOutcome, keywords: seq<string>, k: int)
    requires 0 <= k < |paths|
    ensures forall c :: c in RowOf(paths[k], read, keywords) ==> c in Matches(paths, read, keywords)
  {
    var n := |paths| - 1;
    var init := paths[..n];
    assert paths[..n + 1] == paths;
    MatchesUnfold(paths, read, keywords, n);
    if k < n {
      assert init[k] == paths[k];
      RowInMatches(init, read, keywords, k);
    }
  }

  /** Each discovered file that matches has its row in the report. */
  lemma MatchesComplete(paths: seq<string>, read: string -> ReadOutcome, keywords: seq<string>, k: int)
    requires 0 <= k < |paths| && ChestMatch(paths[k], read(paths[k]), keywords).Some?
    ensures ChestMatch(paths[k], read(paths[k]), keywords).value in Matches(paths, read, keywords)
  {
    RowInMatches(paths, read, keywords, k);
    assert RowOf(paths[k], read, keywords) == [ChestMatch(paths[k], read(paths[k]), keywords).value];
  }

  /** `kw.strip().lower()` for each comma-separated part of `--keywords`. */
  function CustomKeywords(arg: string): (kws: seq<string>)
    ensures |kws| == |Split(arg, ',')|
    ensures forall k :: 0 <= k < |kws| ==> kws[k] == Lower(Strip(Split(arg, ',')[k]))
  {
    var parts := Split(arg, ',');
    seq(|parts|, k requires 0 <= k < |parts| => Lower(Strip(parts[k])))
  }

  /** Custom keywords are lower case and carry no surrounding whitespace,
      so they compare with the lowercased fields as the built-in ones do. */
  lemma CustomKeywordsNormal(arg: string)
    ensures forall k :: 0 <= k < |CustomKeywords(arg)| ==>
      var kw := CustomKeywords(arg)[k];
      && IsLowerCase(kw) && Lower(kw) == kw
      && (kw != "" ==> !IsSpace(kw[0]) && !IsSpace(kw[|kw| - 1]))
  {
    forall k | 0 <= k < |CustomKeywords(arg)|
      ensures var kw := CustomKeywords(arg)[k];
        && IsLowerCase(kw) && Lower(kw) == kw
        && (kw != "" ==> !IsSpace(kw[0]) && !IsSpace(kw[|kw| - 1]))
    {
      NormalKeyword(Split(arg, ',')[k]);
    }
  }

  /** One part of `--keywords` after `strip().lower()`. */
  lemma NormalKeyword(part: string)
    ensures var kw := Lower(Strip(part));
      && IsLowerCase(kw) && Lower(kw) == kw
      && (kw != "" ==> !IsSpace(kw[0]) && !IsSpace(kw[|kw| - 1]))
  {
    var stripped := Strip(part);
    LowerIsLowerCase(stripped);
    if stripped != "" {
      assert !IsSpace(LowerChar(stripped[0])) && !IsSpace(LowerChar(stripped[|stripped| - 1]));
    }
  }

  /** A keyword holding a capital letter never occurs in a lowercased field. */
  lemma CapitalNeverMatches(text: string, keyword: string, i: int)
    requires IsLowerCase(text)
    requires 0 <= i < |keyword| && 'A' <= keyword[i] <= 'Z'
    ensures !Contains(text, keyword)
  {
    forall j | 0 <= j && j + |keyword| <= |text| ensures !OccursAt(text, keyword, j) {
      assert text[j..j + |keyword|][i] == text[j + i];
    }
  }

  /** The empty keyword occurs in every field: once it is among the
      keywords, every readable file is reported. */
  lemma EmptyKeywordMatchesAll(path: string, ds: Dataset, keywords: seq<string>)
    requires "" in keywords
    ensures ChestMatch(path, Parsed(ds), keywords).Some?
  {
    var k :| 0 <= k < |keywords| && keywords[k] == "";
    ContainsEmpty(BodyOf(ds));
  }

  /** A trailing comma in `--keywords` adds the empty keyword. */
  lemma TrailingCommaAddsEmpty(arg: string)
    ensures CustomKeywords(arg + ",") == CustomKeywords(arg) + [""]
  {
    SplitTrailing(arg, ',');
    assert Strip("") == "" && Lower("") == "";
  }

  class Finder {
    const inputDir: string
    /** The class-level keyword list, extended by `--keywords`. */
    var keywords: seq<string>
    var results: seq<ChestScan>

    constructor (inputDir: string)
      ensures this.inputDir == inputDir && keywords == DefaultKeywords && results == []
    {
      this.inputDir := inputDir;
      keywords := DefaultKeywords;
      results := [];
    }

    /** One of the three keyword loops of `is_chest_scan`: scan the
        keywords in order and stop at the first that occurs in `text`. */
    method KeywordIn(text: string) returns (found: bool)
      ensures found <==> AnyKeyword(keywords, text)
    {
      found := false;
      var i := 0;
      while i < |keywords|
        invariant 0 <= i <= |keywords|
        invariant forall k :: 0 <= k < i ==> !Contains(text, keywords[k])
      {
        if Contains(text, keywords[i]) {
          found := true;
          break;
        }
        i := i + 1;
      }
    }

    /** `is_chest_scan`: the report row of a matching file, None for a file
        that does not match or cannot be read. */
    method IsChestScan(path: string, read: ReadOutcome) returns (r: Option<ChestScan>)
      ensures r == ChestMatch(path, read, keywords)
    {
      if read.ReadError? {
        return None;
      }
      var ds := read.ds;
      var body := Lower(Attr(ds, "BodyPartExamined", ""));
      var series := Lower(Attr(ds, "SeriesDescription", ""));
      var study := Lower(Attr(ds, "StudyDescription", ""));
      var matches: seq<string> := [];
      var matchedText: seq<string> := [];
      var found := KeywordIn(body);
      if found {
        matches := matches + [BodyPartField];
        matchedText := matchedText + ["BodyPart: " + body];
      }
      found := KeywordIn(series);
      if found {
        matches := matches + [SeriesField];
        matchedText := matchedText + ["Series: " + series];
      }
      found := KeywordIn(study);
      if found {
        matches := matches + [StudyField];
        matchedText := matchedText + ["Study: " + study];
      }
      assert matches == MatchedFields(keywords, body, series, study);
      assert matchedText == MatchedTexts(keywords, body, series, study);
      if matches != [] {
        r := Some(ChestScan(path, Attr(ds, "PatientID", "UNKNOWN"), Attr(ds, "StudyInstanceUID", "UNKNOWN"),
                            Attr(ds, "SeriesInstanceUID", "UNKNOWN"), Attr(ds, "SeriesNumber", ""),
                            Upper(Attr(ds, "Modality", "")), body, series, study,
                            Join(matches, ", "), Join(matchedText, " | ")));
      } else {
        r := None;
      }
    }

    /** `scan_directory`: `paths` are the `.dcm` files `rglob` found. With
        none the result is empty and `results` is left as it was; otherwise
        `results` becomes the matches in discovery order. */
    method ScanDirectory(paths: seq<string>, read: string -> ReadOutcome) returns (out: seq<ChestScan>)
      modifies this
      ensures out == Matches(paths, read, keywords)
      ensures keywords == old(keywords)
      ensures paths == [] ==> results == old(results)
      ensures paths != [] ==> results == out
    {
      if |paths| == 0 {
        return [];
      }
      var acc: seq<ChestScan> := [];
      var i := 0;
      while i < |paths|
        invariant 0 <= i <= |paths|
        invariant keywords == old(keywords) && results == old(results)
        invariant acc == Matches(paths[..i], read, keywords)
      {
        var r := IsChestScan(paths[i], read(paths[i]));
        MatchesUnfold(paths, read, keywords, i);
        if r.Some? {
          acc := acc + [r.value];
        }
        i := i + 1;
      }
      assert paths[..i] == paths;
      results := acc;
      out := acc;
    }

    /** `main`'s `--keywords`: when given and non-empty, its normalised
        parts are appended to the keyword list. */
    method AddKeywords(arg: Option<string>)
      modifies this
      ensures arg.Some? && arg.value != "" ==> keywords == old(keywords) + CustomKeywords(arg.value)
      ensures !(arg.Some? && arg.value != "") ==> keywords == old(keywords)
      ensures results == old(results)
    {
      if arg.Some? && arg.value != "" {
        keywords := keywords + CustomKeywords(arg.value);
      }
    }
  }

  /** A new finder; `__init__` raises when the directory does not exist,
      and then there is no finder. */
  method NewFinder(inputDir: string, dirExists: bool) returns (r: Option<Finder>)
    ensures r.None? <==> !dirExists
    ensures r.Some? ==>
      fresh(r.value) && r.value.inputDir == inputDir && r.value.keywords == DefaultKeywords && r.value.results == []
  {
    if !dirExists {
      return None;
    }
    var f := new Finder(inputDir);
    r := Some(f);
  }
}
