/** `SaveMetadataStruct`: the schema of the metadata file kept in every save directory. */
module Structs {
  import opened Wrappers
  import opened JsonText
  import opened Schema

  /** A save's metadata, as `mask(..., SaveMetadataStruct)` returns it. */
  datatype SaveMetadata = SaveMetadata(name: string, description: Option<string>, saveTime: string, isAutosave: bool)

  /**
   * The schema as a predicate: an object whose `name` is a non-empty string,
   * whose `description` is absent or a string, whose `saveTime` is a string
   * (of any format) and whose `isAutosave` is absent or a boolean. Other keys
   * are ignored.
   */
  predicate AcceptsMetadata(v: Json) {
    && v.JObj?
    && "name" in v.fields && v.fields["name"].JStr? && v.fields["name"].s != ""
    && ("description" !in v.fields || v.fields["description"].JStr?)
    && "saveTime" in v.fields && v.fields["saveTime"].JStr?
    && ("isAutosave" !in v.fields || v.fields["isAutosave"].JBool?)
  }

  /**
   * The record an accepted object stands for: the fields it carries, an absent
   * `description` left absent, and an absent `isAutosave` read as false.
   */
  predicate Describes(f: Fields, m: SaveMetadata) {
    && "name" in f && f["name"] == JStr(m.name)
    && "saveTime" in f && f["saveTime"] == JStr(m.saveTime)
    && (if "description" in f then m.description.Some? && f["description"] == JStr(m.description.value) else m.description.None?)
    && (if "isAutosave" in f then f["isAutosave"] == JBool(m.isAutosave) else !m.isAutosave)
  }

  /** `mask(v, SaveMetadataStruct)`: the record, or the `StructError` it throws. */
  function ValidateMetadata(v: Json): (r: Result<SaveMetadata, StructError>)
    ensures r.Success? <==> AcceptsMetadata(v)
    ensures r.Success? ==> Describes(v.fields, r.value)
    ensures !v.JObj? ==> r == Failure(ExpectedObject)
  {
    if !v.JObj? then Failure(ExpectedObject)
    else
      var f := v.fields;
      var name := NonEmptyString(f, "name");
      var description := OptionalString(f, "description");
      var saveTime := RequiredString(f, "saveTime");
      var isAutosave := DefaultedBool(f, "isAutosave", false);
      if name.Failure? then Failure(name.error)
      else if description.Failure? then Failure(description.error)
      else if saveTime.Failure? then Failure(saveTime.error)
      else if isAutosave.Failure? then Failure(isAutosave.error)
      else Success(SaveMetadata(name.value, description.value, saveTime.value, isAutosave.value))
  }

  /** The object `JSON.stringify` writes for a record: an absent `description` is left out. */
  function ToJson(m: SaveMetadata): (v: Json)
    ensures v.JObj? && Describes(v.fields, m)
  {
    var required := map["name" := JStr(m.name), "saveTime" := JStr(m.saveTime), "isAutosave" := JBool(m.isAutosave)];
    JObj(if m.description.Some? then required["description" := JStr(m.description.value)] else required)
  }

  /** Two records described by the same object are the same record. */
  lemma DescribesUnique(f: Fields, m1: SaveMetadata, m2: SaveMetadata)
    requires Describes(f, m1) && Describes(f, m2)
    ensures m1 == m2
  {
  }

  /** A record with a non-empty name survives being written out and validated again. */
  lemma MetadataRoundTrip(m: SaveMetadata)
    requires m.name != ""
    ensures ValidateMetadata(ToJson(m)) == Success(m)
  {
    var v := ToJson(m);
    assert AcceptsMetadata(v);
    DescribesUnique(v.fields, ValidateMetadata(v).value, m);
  }

  /** A record with an empty name is written out, but validating it again fails on `name`. */
  lemma EmptyNameRejected(m: SaveMetadata)
    requires m.name == ""
    ensures ValidateMetadata(ToJson(m)) == Failure(InvalidField("name"))
  {
  }
}
