/** The DICOM information lister: one record per `.dcm` file found under a
    directory, holding the patient, the date and time of the observation
    and the examined area, with the patient name optionally replaced by a
    pseudonym built from the patient ID. Reading a file is a parameter:
    the parsed file is a `Dataset` (tag keyword to string value) or the
    message of the exception the reader raised. */
module DicomInfoList {
  import opened Wrappers
  import opened Text
  import opened Dicom

  // ---------------------------------------------------------------------
  // Formatting of DA and TM values

  /** `format_date`: "YYYYMMDD..." becomes "DD/MM/YYYY"; the empty string
      and strings shorter than eight characters come back unchanged. */
  function FormatDate(s: string): (r: string)
    ensures |s| < 8 ==> r == s
    ensures |s| >= 8 ==>
      && |r| == 10 && r[2] == '/' && r[5] == '/'
      && r[..2] == s[6..8] && r[3..5] == s[4..6] && r[6..] == s[..4]
  {
    if |s| >= 8 then s[6..8] + "/" + s[4..6] + "/" + s[0..4] else s
  }

  /** Splitting a formatted date at '/' gives back day, month and year of
      the DA value, whenever its first eight characters hold no '/'. */
  lemma FormatDateSplit(s: string)
    requires |s| >= 8 && '/' !in s[..8]
    ensures Split(FormatDate(s), '/') == [s[6..8], s[4..6], s[..4]]
  {
    var parts := [s[6..8], s[4..6], s[..4]];
    forall k | 0 <= k < 3 ensures '/' !in parts[k] {
      if k == 0 { assert s[6..8] == s[..8][6..8]; }
      if k == 1 { assert s[4..6] == s[..8][4..6]; }
      if k == 2 { assert s[..4] == s[..8][..4]; }
    }
    assert Join(parts[2..], "/") == s[..4];
    assert Join(parts[1..], "/") == s[4..6] + "/" + s[..4];
    assert Join(parts, "/") == FormatDate(s);
    SplitJoin(parts, '/');
  }

  /** `format_time`: "HHMMSS[.FFFFFF]" becomes "HH:MM:SS"; the empty string
      and strings shorter than six characters come back unchanged. */
  function FormatTime(s: string): (r: string)
    ensures |s| < 6 ==> r == s
    ensures |s| >= 6 ==>
      && |r| == 8 && r[2] == ':' && r[5] == ':'
      && r[..2] == s[..2] && r[3..5] == s[2..4] && r[6..] == s[4..6]
  {
    if |s| >= 6 then s[0..2] + ":" + s[2..4] + ":" + s[4..6] else s
  }

  /** The fractional seconds of a TM value do not reach the formatted time. */
  lemma FormatTimeDropsFraction(s: string)
    requires |s| >= 6
    ensures FormatTime(s) == FormatTime(s[..6])
  {
  }

  /** `anonymize_name`: the pseudonym "Patient_<id>"; "UNKNOWN" when both
      the name and the id are empty. */
  function AnonymizeName(name: string, patientId: string): (r: string)
    ensures r == "UNKNOWN" <==> name == "" && patientId == ""
    ensures r != "UNKNOWN" ==> r == "Patient_" + patientId
  {
    if name == "" then (if patientId != "" then "Patient_" + patientId else "UNKNOWN")
    else "Patient_" + patientId
  }

  /** The pseudonym depends on the patient ID alone, not on the name. */
  lemma AnonymizeIgnoresName(a: string, b: string, patientId: string)
    requires a != "" && b != ""
    ensures AnonymizeName(a, patientId) == AnonymizeName(b, patientId)
  {
  }

  // ---------------------------------------------------------------------
  // The fields derived by `extract_info`

  /** The `patient_name` column: the pseudonym when anonymising a non-empty
      name, else the name, else the patient ID. */
  function DisplayName(anonymize: bool, name: string, patientId: string): (r: string)
    ensures anonymize && name != "" ==> r == "Patient_" + patientId
    ensures !anonymize ==> r == (if name != "" then name else patientId)
    ensures name == "" ==> r == patientId
  {
    if anonymize && name != "" then AnonymizeName(name, patientId)
    else if name != "" then name
    else patientId
  }

  /** Once anonymised, two records of one patient ID show the same name,
      whatever names the files carry. */
  lemma DisplayNameHidesName(a: string, b: string, patientId: string)
    requires a != "" && b != ""
    ensures DisplayName(true, a, patientId) == DisplayName(true, b, patientId)
  {
  }

  /** Python's `x or y or ...` over strings: the first non-empty one, or the
      empty string. */
  function FirstNonEmpty(xs: seq<string>): (r: string)
    ensures r == "" <==> forall k :: 0 <= k < |xs| ==> xs[k] == ""
    ensures r != "" ==> exists i :: 0 <= i < |xs| && r == xs[i] && forall k :: 0 <= k < i ==> xs[k] == ""
  {
    if |xs| == 0 then ""
    else if xs[0] != "" then xs[0]
    else
      var r := FirstNonEmpty(xs[1..]);
      assert forall k :: 1 <= k < |xs| ==> xs[k] == xs[1..][k - 1];
      if r != "" then
        var i :| 0 <= i < |xs[1..]| && r == xs[1..][i] && forall k :: 0 <= k < i ==> xs[1..][k] == "";
        assert r == xs[i + 1] && forall k :: 0 <= k < i + 1 ==> xs[k] == "";
        r
      else r
  }

  /** One step of the examined-area accumulation: a non-empty description
      not yet present is appended after " - ", or stands alone when the
      area is still empty. */
  function AddDescription(area: string, desc: string): (r: string)
    ensures desc != "" ==> Contains(r, desc)
    ensures Contains(area, desc) ==> r == area
    ensures StartsWith(r, area)
  {
    if desc != "" && !Contains(area, desc) then
      if area != "" then
        ContainsParts(area + " - ", desc);
        area + " - " + desc
      else desc
    else
      ContainsItself(area);
      area
  }

  /** `examined_area`: the body part, then the study description, then the
      series description, each added only when not already contained. */
  function ExaminedArea(bodyPart: string, studyDesc: string, seriesDesc: string): string
  {
    AddDescription(AddDescription(bodyPart, studyDesc), seriesDesc)
  }

  /** The examined area starts with the body part, contains every non-empty
      description, and is empty only when all three inputs are. */
  lemma ExaminedAreaCovers(bodyPart: string, studyDesc: string, seriesDesc: string)
    ensures var r := ExaminedArea(bodyPart, studyDesc, seriesDesc);
      && StartsWith(r, bodyPart)
      && (studyDesc != "" ==> Contains(r, studyDesc))
      && (seriesDesc != "" ==> Contains(r, seriesDesc))
      && (r == "" <==> bodyPart == "" && studyDesc == "" && seriesDesc == "")
  {
    var a := AddDescription(bodyPart, studyDesc);
    var r := AddDescription(a, seriesDesc);
    if studyDesc != "" {
      assert r[..|a|] == a;
      OccursInSlice(r, studyDesc, 0, |a|);
    }
    if seriesDesc == "" && studyDesc != "" {
      assert Contains(a, studyDesc);
    }
  }

  /** Adding a description twice adds it once. */
  lemma AddDescriptionIdempotent(area: string, desc: string)
    ensures AddDescription(AddDescription(area, desc), desc) == AddDescription(area, desc)
  {
  }

  // ---------------------------------------------------------------------
  // Records

  /** One row of the report. */
  datatype Info = Info(
    filePath: string,
    patientName: string,
    patientId: string,
    patientSex: string,
    patientBirthDate: string,
    observationDate: string,
    observationTime: string,
    observationDateRaw: string,
    examinedArea: string,
    bodyPart: string,
    studyDescription: string,
    seriesDescription: string,
    modality: string,
    institution: string,
    studyUid: string,
    seriesUid: string,
    seriesNumber: string,
    instanceNumber: string)

  /** `str(getattr(ds, key, default)).strip()`. */
  function Field(ds: Dataset, key: string, default: string): string
  {
    Strip(Attr(ds, key, default))
  }

  /** The record of a file whose header could not be read. */
  function ErrorInfo(path: string, message: string): (info: Info)
    ensures info.patientName == "ERROR" && info.patientId == "ERROR"
    ensures info.examinedArea == "ERROR: " + message
    ensures info.filePath == path && info.observationDateRaw == "" && info.studyUid == ""
  {
    Info(path, "ERROR", "ERROR", "", "", "", "", "", "ERROR: " + message,
         "", "", "", "", "", "", "", "", "")
  }

  /** The stripped attribute values `extract_info` reads, PatientID
      defaulting to "UNKNOWN" and every other attribute to "". */
  datatype Raw = Raw(
    patientName: string, patientId: string, birthDate: string, sex: string,
    studyDate: string, seriesDate: string, acquisitionDate: string, contentDate: string,
    studyTime: string, seriesTime: string, acquisitionTime: string,
    bodyPart: string, studyDesc: string, seriesDesc: string,
    modality: string, institution: string, studyUid: string, seriesUid: string,
    seriesNumber: string, instanceNumber: string)

  function RawOf(ds: Dataset): Raw
  {
    Raw(Field(ds, "PatientName", ""), Field(ds, "PatientID", "UNKNOWN"),
        Field(ds, "PatientBirthDate", ""), Field(ds, "PatientSex", ""),
        Field(ds, "StudyDate", ""), Field(ds, "SeriesDate", ""),
        Field(ds, "AcquisitionDate", ""), Field(ds, "ContentDate", ""),
        Field(ds, "StudyTime", ""), Field(ds, "SeriesTime", ""), Field(ds, "AcquisitionTime", ""),
        Field(ds, "BodyPartExamined", ""), Field(ds, "StudyDescription", ""),
        Field(ds, "SeriesDescription", ""), Field(ds, "Modality", ""),
        Field(ds, "InstitutionName", ""), Field(ds, "StudyInstanceUID", ""),
        Field(ds, "SeriesInstanceUID", ""), Field(ds, "SeriesNumber", ""),
        Field(ds, "InstanceNumber", ""))
  }

  /** The four dates, in the order they are tried. */
  function Dates(r: Raw): seq<string>
  {
    [r.studyDate, r.seriesDate, r.acquisitionDate, r.contentDate]
  }

  /** The record derived from the attribute values. */
  function InfoFrom(path: string, r: Raw, anonymize: bool): Info
  {
    var observationDate := FirstNonEmpty(Dates(r));
    var observationTime := FirstNonEmpty([r.studyTime, r.seriesTime, r.acquisitionTime]);
    Info(path, DisplayName(anonymize, r.patientName, r.patientId), r.patientId, r.sex,
         FormatDate(r.birthDate), FormatDate(observationDate), FormatTime(observationTime), observationDate,
         ExaminedArea(r.bodyPart, r.studyDesc, r.seriesDesc), r.bodyPart, r.studyDesc, r.seriesDesc,
         r.modality, r.institution, r.studyUid, r.seriesUid, r.seriesNumber, r.instanceNumber)
  }

  /** `extract_info`: the record of one file. */
  function ExtractInfo(path: string, read: ReadOutcome, anonymize: bool): (info: Info)
    ensures info.filePath == path
    ensures read.ReadError? ==> info == ErrorInfo(path, read.message)
  {
    match read
    case ReadError(message) => ErrorInfo(path, message)
    case Parsed(ds) => InfoFrom(path, RawOf(ds), anonymize)
  }

  /** The record of a readable file: the patient name as displayed, the
      first non-empty of the four dates and its formatted form, and an
      examined area that begins with the body part and contains both
      descriptions. */
  lemma InfoFromFields(path: string, r: Raw, anonymize: bool)
    ensures var info := InfoFrom(path, r, anonymize);
      var dates := Dates(r);
      && info.patientId == r.patientId
      && (anonymize && r.patientName != "" ==> info.patientName == "Patient_" + r.patientId)
      && (!anonymize && r.patientName != "" ==> info.patientName == r.patientName)
      && (r.patientName == "" ==> info.patientName == r.patientId)
      && (info.observationDateRaw == "" <==> forall k :: 0 <= k < 4 ==> dates[k] == "")
      && (info.observationDateRaw != "" ==>
            exists i :: 0 <= i < 4 && info.observationDateRaw == dates[i] && forall k :: 0 <= k < i ==> dates[k] == "")
      && info.observationDate == FormatDate(info.observationDateRaw)
      && StartsWith(info.examinedArea, r.bodyPart)
      && (r.studyDesc != "" ==> Contains(info.examinedArea, r.studyDesc))
      && (r.seriesDesc != "" ==> Contains(info.examinedArea, r.seriesDesc))
  {
    ExaminedAreaCovers(r.bodyPart, r.studyDesc, r.seriesDesc);
  }

  /** Anonymising changes the patient name column and nothing else. */
  lemma AnonymizeOnlyName(path: string, read: ReadOutcome)
    ensures var plain := ExtractInfo(path, read, false);
      ExtractInfo(path, read, true) == plain.(patientName := ExtractInfo(path, read, true).patientName)
  {
  }

  /** The records of `paths`, in discovery order. */
  function Records(paths: seq<string>, read: string -> ReadOutcome, anonymize: bool): (rs: seq<Info>)
    ensures |rs| == |paths|
  {
    if |paths| == 0 then []
    else
      var last := paths[|paths| - 1];
      Records(paths[..|paths| - 1], read, anonymize) + [ExtractInfo(last, read(last), anonymize)]
  }

  /** The record at position `k` is the record of the `k`-th discovered
      file: one record per file, in discovery order, error records
      included. */
  lemma {:induction false} RecordsAt(paths: seq<string>, read: string -> ReadOutcome, anonymize: bool, k: int)
    requires 0 <= k < |paths|
    ensures Records(paths, read, anonymize)[k] == ExtractInfo(paths[k], read(paths[k]), anonymize)
  {
    var init := paths[..|paths| - 1];
    var last := paths[|paths| - 1];
    var prefix := Records(init, read, anonymize);
    assert Records(paths, read, anonymize) == prefix + [ExtractInfo(last, read(last), anonymize)];
    if k < |init| {
      RecordsAt(init, read, anonymize, k);
      assert init[k] == paths[k];
      assert Records(paths, read, anonymize)[k] == prefix[k];
    } else {
      assert k == |prefix| && paths[k] == last;
    }
  }

  /** Extending the discovered files by one appends that file's record. */
  lemma RecordsSnoc(paths: seq<string>, read: string -> ReadOutcome, anonymize: bool, i: int)
    requires 0 <= i < |paths|
    ensures Records(paths[..i + 1], read, anonymize)
         == Records(paths[..i], read, anonymize) + [ExtractInfo(paths[i], read(paths[i]), anonymize)]
  {
    assert paths[..i + 1][..i] == paths[..i];
  }

  // ---------------------------------------------------------------------
  // The lister

  class Lister {
    const inputDir: string
    const anonymize: bool
    var results: seq<Info>

    constructor (inputDir: string, anonymize: bool)
      ensures this.inputDir == inputDir && this.anonymize == anonymize
      ensures results == []
    {
      this.inputDir := inputDir;
      this.anonymize := anonymize;
      results := [];
    }

    /** `scan_directory`: `paths` are the `.dcm` files `rglob` found. With
        none the result is empty and `results` is left as it was; otherwise
        `results` becomes the returned list of one record per file. */
    method ScanDirectory(paths: seq<string>, read: string -> ReadOutcome) returns (out: seq<Info>)
      modifies this
      ensures out == Records(paths, read, anonymize)
      ensures paths == [] ==> results == old(results)
      ensures paths != [] ==> results == out
    {
      if |paths| == 0 {
        return [];
      }
      var acc: seq<Info> := [];
      var i := 0;
      while i < |paths|
        modifies {}
        invariant 0 <= i <= |paths|
        invariant acc == Records(paths[..i], read, anonymize)
      {
        RecordsSnoc(paths, read, anonymize, i);
        acc := acc + [ExtractInfo(paths[i], read(paths[i]), anonymize)];
        i := i + 1;
      }
      assert paths[..i] == paths;
      results := acc;
      out := acc;
    }
  }

  /** A new lister; `__init__` raises when the directory does not exist,
      and then there is no lister. */
  method NewLister(inputDir: string, anonymize: bool, dirExists: bool) returns (r: Option<Lister>)
    ensures r.None? <==> !dirExists
    ensures r.Some? ==>
      fresh(r.value) && r.value.inputDir == inputDir && r.value.anonymize == anonymize && r.value.results == []
  {
    if !dirExists {
      return None;
    }
    var l := new Lister(inputDir, anonymize);
    r := Some(l);
  }
}
