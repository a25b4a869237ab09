/** The `/api/tree` view of the web viewer: every readable DICOM file under
    the base directory is filed into a patient -> study -> series tree,
    keyed by PatientID, StudyInstanceUID and SeriesInstanceUID. The first
    file seen for a key creates its record; later files only append their
    path to the series' image list. The directory tree is a value: a
    directory whose listing fails has no entries, a file that does not open
    as DICOM has no dataset. */
module WebviewTree {
  import opened Wrappers
  import opened Text
  import opened Dicom

  /** The directory the server serves from. */
  const BasePath: string := "/home/gacquewi/dicom"

  datatype SeriesInfo = SeriesInfo(
    seriesUid: string, seriesDescription: string, modality: string,
    imageCount: nat, images: seq<string>)

  datatype StudyInfo = StudyInfo(
    studyUid: string, studyDescription: string, studyDate: string,
    series: map<string, SeriesInfo>)

  datatype PatientInfo = PatientInfo(
    patientId: string, patientName: string,
    studies: map<string, StudyInfo>)

  type Patients = map<string, PatientInfo>

  /** A directory entry as `read_dir` and `open_file` see it. */
  datatype Entry =
    | Dir(path: string, readable: bool, children: seq<Entry>)
    | File(path: string, header: Option<Dataset>)

  /** The three keys a file is filed under, with the server's defaults. */
  datatype Key = Key(patient: string, study: string, series: string)

  function KeyOf(ds: Dataset): (k: Key)
    ensures "PatientID" !in ds ==> k.patient == "UNKNOWN"
    ensures "StudyInstanceUID" !in ds ==> k.study == "UNKNOWN_STUDY"
    ensures "SeriesInstanceUID" !in ds ==> k.series == "UNKNOWN_SERIES"
  {
    Key(Attr(ds, "PatientID", "UNKNOWN"), Attr(ds, "StudyInstanceUID", "UNKNOWN_STUDY"),
        Attr(ds, "SeriesInstanceUID", "UNKNOWN_SERIES"))
  }

  /** `strip_prefix` of the base directory, for the image path. */
  function RelativePath(path: string): string
  {
    if StartsWith(path, BasePath + "/") then path[|BasePath| + 1..]
    else if path == BasePath then ""
    else path
  }

  /** The records `or_insert` creates on first sight of a key. */
  function NewPatient(ds: Dataset): PatientInfo
  {
    PatientInfo(KeyOf(ds).patient, Attr(ds, "PatientName", "Unknown"), map[])
  }

  function NewStudy(ds: Dataset): StudyInfo
  {
    StudyInfo(KeyOf(ds).study, Attr(ds, "StudyDescription", ""), Attr(ds, "StudyDate", "Unknown"), map[])
  }

  function NewSeries(ds: Dataset): SeriesInfo
  {
    SeriesInfo(KeyOf(ds).series, Attr(ds, "SeriesDescription", ""), Attr(ds, "Modality", "Unknown"), 0, [])
  }

  /** The series filed under `k`, if any. */
  function Lookup(p: Patients, k: Key): Option<SeriesInfo>
  {
    if k.patient in p && k.study in p[k.patient].studies && k.series in p[k.patient].studies[k.study].series
    then Some(p[k.patient].studies[k.study].series[k.series])
    else None
  }

  /** The image list under `k`, empty when there is no such series. */
  function ImagesAt(p: Patients, k: Key): seq<string>
  {
    match Lookup(p, k)
    case Some(s) => s.images
    case None => []
  }

  /** Filing one file: find or create the patient, the study and the
      series, then push the image path and refresh `image_count`. */
  function Insert(p: Patients, ds: Dataset, image: string): Patients
  {
    var k := KeyOf(ds);
    var patient := if k.patient in p then p[k.patient] else NewPatient(ds);
    var study := if k.study in patient.studies then patient.studies[k.study] else NewStudy(ds);
    var series := if k.series in study.series then study.series[k.series] else NewSeries(ds);
    var images := series.images + [image];
    var series' := series.(images := images, imageCount := |images|);
    p[k.patient := patient.(studies := patient.studies[k.study := study.(series := study.series[k.series := series'])])]
  }

  /** Every record sits under its own identifier, and every series counts
      exactly the images it lists. */
  ghost predicate WellFormed(p: Patients)
  {
    forall pk :: pk in p ==>
      && p[pk].patientId == pk
      && forall sk :: sk in p[pk].studies ==>
        && p[pk].studies[sk].studyUid == sk
        && forall rk :: rk in p[pk].studies[sk].series ==>
          && p[pk].studies[sk].series[rk].seriesUid == rk
          && p[pk].studies[sk].series[rk].imageCount == |p[pk].studies[sk].series[rk].images|
  }

  /** Filing a file keeps the tree well formed. */
  lemma InsertWellFormed(p: Patients, ds: Dataset, image: string)
    requires WellFormed(p)
    ensures WellFormed(Insert(p, ds, image))
  {
    var k := KeyOf(ds);
    var q := Insert(p, ds, image);
    forall pk | pk in q
      ensures q[pk].patientId == pk
      ensures forall sk :: sk in q[pk].studies ==>
        && q[pk].studies[sk].studyUid == sk
        && forall rk :: rk in q[pk].studies[sk].series ==>
          && q[pk].studies[sk].series[rk].seriesUid == rk
          && q[pk].studies[sk].series[rk].imageCount == |q[pk].studies[sk].series[rk].images|
    {
      if pk == k.patient {
        var patient := if k.patient in p then p[k.patient] else NewPatient(ds);
        forall sk | sk in q[pk].studies
          ensures q[pk].studies[sk].studyUid == sk
          ensures forall rk :: rk in q[pk].studies[sk].series ==>
            && q[pk].studies[sk].series[rk].seriesUid == rk
            && q[pk].studies[sk].series[rk].imageCount == |q[pk].studies[sk].series[rk].images|
        {
          if sk != k.study {
            assert q[pk].studies[sk] == patient.studies[sk];
          }
        }
      }
    }
  }

  /** Filing a file appends its path to the one series its keys name, and
      leaves every other series as it was: each file lands in exactly one
      image list. */
  lemma InsertExactlyOne(p: Patients, ds: Dataset, image: string)
    ensures ImagesAt(Insert(p, ds, image), KeyOf(ds)) == ImagesAt(p, KeyOf(ds)) + [image]
    ensures Lookup(Insert(p, ds, image), KeyOf(ds)).Some?
    ensures forall k :: k != KeyOf(ds) ==> Lookup(Insert(p, ds, image), k) == Lookup(p, k)
  {
  }

  /** Records are created on first sight only: a patient, study or series
      already present keeps its name, description, date and modality. */
  lemma InsertFirstWriterWins(p: Patients, ds: Dataset, image: string)
    ensures var k := KeyOf(ds);
      var q := Insert(p, ds, image);
      && (k.patient in p ==> q[k.patient].patientName == p[k.patient].patientName)
      && (k.patient in p && k.study in p[k.patient].studies ==>
            var s0 := p[k.patient].studies[k.study];
            var s1 := q[k.patient].studies[k.study];
            s1.studyDescription == s0.studyDescription && s1.studyDate == s0.studyDate)
      && (Lookup(p, k).Some? ==>
            Lookup(q, k).value.seriesDescription == Lookup(p, k).value.seriesDescription
            && Lookup(q, k).value.modality == Lookup(p, k).value.modality)
  {
  }

  /** A file's first sight sets the metadata from that file. */
  lemma InsertNewRecords(p: Patients, ds: Dataset, image: string)
    ensures var k := KeyOf(ds);
      var q := Insert(p, ds, image);
      && (k.patient !in p ==> q[k.patient].patientName == Attr(ds, "PatientName", "Unknown"))
      && (Lookup(p, k).None? ==> Lookup(q, k).value.images == [image])
  {
  }

  // ---------------------------------------------------------------------
  // The recursive walk

  /** A file that opened, with the path it is listed under. */
  datatype Scanned = Scanned(ds: Dataset, image: string)

  /** The opened files of an entry, in the order the walk meets them. */
  function FilesOf(e: Entry): seq<Scanned>
    decreases e
  {
    match e
    case File(path, header) =>
      if header.Some? then [Scanned(header.value, RelativePath(path))] else []
    case Dir(_, readable, children) =>
      if readable then FilesIn(e, |children|) else []
  }

  /** The opened files of the first `n` entries of directory `d`. */
  function FilesIn(d: Entry, n: nat): seq<Scanned>
    requires d.Dir? && n <= |d.children|
    decreases d, n
  {
    if n == 0 then [] else FilesIn(d, n - 1) + FilesOf(d.children[n - 1])
  }

  /** Filing a sequence of files one after the other. */
  function InsertAll(p: Patients, fs: seq<Scanned>): Patients
  {
    if |fs| == 0 then p
    else Insert(InsertAll(p, fs[..|fs| - 1]), fs[|fs| - 1].ds, fs[|fs| - 1].image)
  }

  lemma {:induction false} InsertAllAppend(p: Patients, a: seq<Scanned>, b: seq<Scanned>)
    ensures InsertAll(p, a + b) == InsertAll(InsertAll(p, a), b)
    decreases |b|
  {
    if |b| > 0 {
      assert (a + b)[..|a + b| - 1] == a + b[..|b| - 1];
      assert (a + b)[|a + b| - 1] == b[|b| - 1];
      InsertAllAppend(p, a, b[..|b| - 1]);
    } else {
      assert a + b == a;
    }
  }

  /** The files whose keys are `k`, as image paths, in order. */
  function ImagesFor(fs: seq<Scanned>, k: Key): seq<string>
  {
    if |fs| == 0 then []
    else ImagesFor(fs[..|fs| - 1], k) + (if KeyOf(fs[|fs| - 1].ds) == k then [fs[|fs| - 1].image] else [])
  }

  /** Filing one file extends the image list of its own key by its path and
      no other. */
  lemma InsertImages(p: Patients, ds: Dataset, image: string, k: Key)
    ensures ImagesAt(Insert(p, ds, image), k) == ImagesAt(p, k) + (if KeyOf(ds) == k then [image] else [])
  {
    InsertExactlyOne(p, ds, image);
    if KeyOf(ds) != k {
      assert ImagesAt(p, k) + [] == ImagesAt(p, k);
    }
  }

  /** After the walk each series lists what it listed before followed by
      the paths of exactly the files filed under its keys, in walk order. */
  lemma {:induction false} InsertAllImages(p: Patients, fs: seq<Scanned>, k: Key)
    ensures ImagesAt(InsertAll(p, fs), k) == ImagesAt(p, k) + ImagesFor(fs, k)
  {
    if |fs| > 0 {
      var init := fs[..|fs| - 1];
      var f := fs[|fs| - 1];
      InsertAllImages(p, init, k);
      InsertImages(InsertAll(p, init), f.ds, f.image, k);
    }
  }

  lemma {:induction false} InsertAllWellFormed(p: Patients, fs: seq<Scanned>)
    requires WellFormed(p)
    ensures WellFormed(InsertAll(p, fs))
  {
    if |fs| > 0 {
      InsertAllWellFormed(p, fs[..|fs| - 1]);
      InsertWellFormed(InsertAll(p, fs[..|fs| - 1]), fs[|fs| - 1].ds, fs[|fs| - 1].image);
    }
  }

  /** The tree `get_dicom_tree` answers with: well formed, and every series
      lists exactly the opened files carrying its keys. */
  lemma TreeOfWalk(root: Entry, k: Key)
    ensures WellFormed(InsertAll(map[], FilesOf(root)))
    ensures ImagesAt(InsertAll(map[], FilesOf(root)), k) == ImagesFor(FilesOf(root), k)
  {
    InsertAllWellFormed(map[], FilesOf(root));
    InsertAllImages(map[], FilesOf(root), k);
  }

  /** The `patients` map that `scan_directory` fills in place. */
  class Tree {
    var patients: Patients

    constructor ()
      ensures patients == map[]
    {
      patients := map[];
    }

    /** The body of the walk for one opened file: three `or_insert`s, each
        taking the record present or a new one, and a push. */
    method AddFile(ds: Dataset, image: string)
      modifies this
      ensures patients == Insert(old(patients), ds, image)
    {
      var k := KeyOf(ds);
      var patient := if k.patient in patients then patients[k.patient] else NewPatient(ds);
      var study := if k.study in patient.studies then patient.studies[k.study] else NewStudy(ds);
      var series := if k.series in study.series then study.series[k.series] else NewSeries(ds);
      series := series.(images := series.images + [image]);
      series := series.(imageCount := |series.images|);
      study := study.(series := study.series[k.series := series]);
      patient := patient.(studies := patient.studies[k.study := study]);
      patients := patients[k.patient := patient];
    }

    /** `scan_directory`: walk `dir`, descending into subdirectories and
        filing every file that opens. */
    method ScanDirectory(dir: Entry)
      requires dir.Dir?
      modifies this
      ensures patients == InsertAll(old(patients), FilesOf(dir))
      decreases dir
    {
      if !dir.readable {
        return;
      }
      var i := 0;
      while i < |dir.children|
        invariant 0 <= i <= |dir.children|
        invariant patients == InsertAll(old(patients), FilesIn(dir, i))
        decreases |dir.children| - i
      {
        var child := dir.children[i];
        ghost var before := patients;
        if child.Dir? {
          ScanDirectory(child);
        } else if child.header.Some? {
          AddFile(child.header.value, RelativePath(child.path));
          assert patients == InsertAll(before, FilesOf(child));
        }
        InsertAllAppend(old(patients), FilesIn(dir, i), FilesOf(child));
        i := i + 1;
      }
    }
  }

  /** `get_dicom_tree`: walk the base directory into a fresh map. */
  method GetDicomTree(root: Entry) returns (patients: Patients)
    requires root.Dir?
    ensures patients == InsertAll(map[], FilesOf(root))
  {
    var tree := new Tree();
    tree.ScanDirectory(root);
    patients := tree.patients;
  }
}
