/**
 * The metadata file `firesave-metadata.json` kept inside each save directory:
 * where it lives, how a record is written to it, and how it is read back
 * (`readTextFile`, then `JSON.parse`, then `mask` with `SaveMetadataStruct`).
 */
module Sidecar {
  import opened Wrappers
  import opened Paths
  import opened JsonText
  import opened FileSystem
  import opened Schema
  import opened Structs

  const METADATA_FILE := "firesave-metadata.json"

  /** `path.join(savePath, "firesave-metadata.json")` */
  function MetadataPath(savePath: Path): (p: Path)
    ensures p == savePath + [METADATA_FILE]
  {
    assert IsName(METADATA_FILE);
    Join(savePath, METADATA_FILE)
  }

  /** Why reading a metadata file failed: the file system, `JSON.parse`, or the schema. */
  datatype ReadFailure = Io(ioError: IoError) | Syntax | Invalid(structError: StructError)

  /** Reading and validating the metadata file at `p`. */
  function ReadMetadataFile(nodes: Nodes, p: Path): (r: Result<SaveMetadata, ReadFailure>)
    ensures r.Success? ==> r.value.name != ""
  {
    match ReadTextFile(nodes, p)
    case Failure(e) => Failure(Io(e))
    case Success(raw) =>
      match Parse(raw)
      case Failure(_) => Failure(Syntax)
      case Success(v) =>
        match ValidateMetadata(v)
        case Failure(e) => Failure(Invalid(e))
        case Success(m) => Success(m)
  }

  /**
   * A metadata file reads as a record exactly when it exists, parses, and
   * passes the schema; a missing file is `NotFound` (or `NotADirectory` below
   * a regular file), a directory in its place is `IsADirectory`, text that
   * does not parse is a syntax error, and a parsed
   * value the schema refuses is a schema error.
   */
  lemma ReadMetadataFileClassifies(nodes: Nodes, p: Path)
    ensures var r := ReadMetadataFile(nodes, p);
      && (r.Success? <==> p in nodes && nodes[p].File? && nodes[p].text.Parsable? && AcceptsMetadata(nodes[p].text.value))
      && (r.Success? ==> Describes(nodes[p].text.value.fields, r.value))
      && (p !in nodes ==> r == Failure(Io(MissingError(nodes, p))))
      && (p in nodes && nodes[p] == Directory ==> r == Failure(Io(IsADirectory)))
      && (p in nodes && nodes[p] == File(Malformed) ==> r == Failure(Syntax))
      && (p in nodes && nodes[p].File? && nodes[p].text.Parsable? && !AcceptsMetadata(nodes[p].text.value) ==>
            r.Failure? && r.error.Invalid?)
  {
  }

  /** The text `JSON.stringify(record)` writes. */
  function Encode(m: SaveMetadata): (t: Text)
    ensures Parse(t).Success? && Parse(t).value.JObj? && Describes(Parse(t).value.fields, m)
  {
    Stringify(ToJson(m))
  }

  /** A record written with a non-empty name reads back as the same record. */
  lemma WriteThenRead(nodes: Nodes, p: Path, m: SaveMetadata)
    requires m.name != ""
    ensures ReadMetadataFile(nodes[p := File(Encode(m))], p) == Success(m)
  {
    MetadataRoundTrip(m);
  }

  /** A record written with an empty name reads back as a schema error. */
  lemma WriteThenReadEmptyName(nodes: Nodes, p: Path, m: SaveMetadata)
    requires m.name == ""
    ensures ReadMetadataFile(nodes[p := File(Encode(m))], p) == Failure(Invalid(InvalidField("name")))
  {
    EmptyNameRejected(m);
  }
}
