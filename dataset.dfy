/**
 * The scrub applied to each dataset: every listed element is overwritten with
 * the empty string, then `PatientID` is overwritten with the target id. An
 * element that the dataset does not hold makes the lookup fail, which aborts
 * the run.
 */
module Dataset {
  import opened Wrappers
  import opened Tree

  /** The exceptions the anonymiser can raise. */
  datatype Error =
    | MissingInput                  // the source path does not exist
    | NotReadable(name: string)     // the DICOM reader rejects an entry (not DICOM, or a directory)
    | FieldNotFound(field: string)  // a listed element is absent from a dataset
    | NameError(name: string)       // a name that is bound nowhere is read

  const PatientId := "PatientID"

  /** Overwrite each listed element with '' in turn, failing at the first one
      the dataset does not hold. */
  function ClearFields(rec: Record, fields: seq<string>): (r: Result<Record, Error>)
    ensures r.Success? <==> forall i :: 0 <= i < |fields| ==> fields[i] in rec
    ensures r.Success? ==> r.value.Keys == rec.Keys
    ensures r.Success? ==> forall k :: k in rec ==> r.value[k] == if k in fields then "" else rec[k]
    ensures r.Failure? ==> exists i :: 0 <= i < |fields| && r.error == FieldNotFound(fields[i])
                                       && fields[i] !in rec && forall j :: 0 <= j < i ==> fields[j] in rec
    decreases |fields|
  {
    if fields == [] then Success(rec)
    else if fields[0] !in rec then Failure(FieldNotFound(fields[0]))
    else
      var r := ClearFields(rec[fields[0] := ""], fields[1..]);
      assert forall i :: 1 <= i < |fields| ==> fields[1..][i - 1] == fields[i];
      if r.Failure? then
        var i :| 0 <= i < |fields[1..]| && r.error == FieldNotFound(fields[1..][i])
                 && fields[1..][i] !in rec[fields[0] := ""]
                 && forall j :: 0 <= j < i ==> fields[1..][j] in rec[fields[0] := ""];
        assert r.error == FieldNotFound(fields[i + 1]) && fields[i + 1] !in rec;
        r
      else
        r
  }

  /** `rec` is `src` with every listed element blanked and `PatientID` set to
      `id`; no element is added or removed and every other one keeps its value. */
  predicate Scrubbed(src: Record, fields: seq<string>, id: string, rec: Record)
  {
    && rec.Keys == src.Keys
    && PatientId in rec && rec[PatientId] == id
    && forall k :: k in src && k != PatientId ==> rec[k] == if k in fields then "" else src[k]
  }

  /** The whole scrub of one dataset: the listed elements, then `PatientID`. */
  function Scrub(rec: Record, fields: seq<string>, id: string): (r: Result<Record, Error>)
    ensures r.Success? <==> (forall i :: 0 <= i < |fields| ==> fields[i] in rec) && PatientId in rec
    ensures r.Success? ==> Scrubbed(rec, fields, id, r.value)
    ensures r.Failure? ==> r.error.FieldNotFound? && r.error.field !in rec
  {
    match ClearFields(rec, fields)
    case Failure(e) => Failure(e)
    case Success(cleared) =>
      if PatientId in cleared then Success(cleared[PatientId := id])
      else Failure(FieldNotFound(PatientId))
  }

  /** The dataset holds `PatientID` and every listed element. */
  predicate HoldsFields(rec: Record, fields: seq<string>)
  {
    PatientId in rec && forall k :: k in fields ==> k in rec
  }

  /** The scrub goes through exactly when the dataset holds `PatientID` and
      every listed element; otherwise it names an absent one. */
  lemma ScrubSucceeds(rec: Record, fields: seq<string>, id: string)
    ensures Scrub(rec, fields, id).Success? <==> HoldsFields(rec, fields)
  {
    assert (forall i :: 0 <= i < |fields| ==> fields[i] in rec) <==> (forall k :: k in fields ==> k in rec);
  }

  /** The element loop as the anonymiser runs it: the dataset is changed one
      element at a time, and the first missing element stops it. */
  method ScrubRecord(rec: Record, fields: seq<string>, id: string) returns (r: Result<Record, Error>)
    ensures r == Scrub(rec, fields, id)
  {
    var ds := rec;
    var i := 0;
    while i < |fields|
      invariant 0 <= i <= |fields|
      invariant ClearFields(ds, fields[i..]) == ClearFields(rec, fields)
    {
      var b := fields[i];
      if b !in ds {
        assert ClearFields(ds, fields[i..]) == Failure(FieldNotFound(b));
        return Failure(FieldNotFound(b));
      }
      ds := ds[b := ""];
      assert fields[i..][1..] == fields[i + 1..];
      i := i + 1;
    }
    assert ClearFields(ds, fields[i..]) == Success(ds);
    if PatientId !in ds {
      return Failure(FieldNotFound(PatientId));
    }
    ds := ds[PatientId := id];
    return Success(ds);
  }

  /** Scrubbing a scrubbed dataset again changes nothing. */
  lemma ScrubIdempotent(rec: Record, fields: seq<string>, id: string)
    requires Scrub(rec, fields, id).Success?
    ensures Scrub(Scrub(rec, fields, id).value, fields, id) == Scrub(rec, fields, id)
  {
    var once := Scrub(rec, fields, id).value;
    var twice := Scrub(once, fields, id);
    assert twice.Success?;
    assert twice.value == once;
  }
}
