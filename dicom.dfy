/** The view of a parsed DICOM object shared by every module: a map from the
    attribute keyword (`PatientID`, `StudyInstanceUID`, ...) to its value as
    text. An attribute that is absent, or whose value cannot be read as text,
    is simply not a key of the map. */
module Dicom {

  type Dataset = map<string, string>

  /** The value of attribute `key`, or `default` when it is absent: Python's
      `getattr(ds, key, default)` and Rust's
      `element_by_name(key).ok().and_then(to_str).unwrap_or(default)`. */
  function Attr(ds: Dataset, key: string, default: string): (v: string)
    ensures key in ds ==> v == ds[key]
    ensures key !in ds ==> v == default
  {
    if key in ds then ds[key] else default
  }

  /** What reading one file gave: the parsed header, or the message of the
      exception the reader (`pydicom.dcmread`) raised. */
  datatype ReadOutcome = Parsed(ds: Dataset) | ReadError(message: string)

  /** Python truthiness of a dataset: it holds at least one element. */
  predicate NonEmpty(ds: Dataset)
  {
    |ds| > 0
  }
}
