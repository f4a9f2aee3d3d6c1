/**
 * The part of Deno's file-system API the commands use: `mkdirSync`,
 * `readTextFile`/`readFileSync` and `writeTextFileSync` with `create: true`,
 * over a file system that maps absolute paths to directories and text files.
 */
module FileSystem {
  import opened Wrappers
  import opened Paths
  import opened JsonText

  datatype Node = Directory | File(text: Text)

  /** The `Deno.errors` classes these calls can raise. */
  datatype IoError = NotFound | AlreadyExists | IsADirectory | NotADirectory

  type Nodes = map<Path, Node>

  function Parent(p: Path): Path
    requires p != []
  {
    p[..|p| - 1]
  }

  /** A file system is a tree: the root is a directory and every other node sits in a directory. */
  ghost predicate IsTree(nodes: Nodes) {
    && [] in nodes && nodes[[]] == Directory
    && forall p :: p in nodes && p != [] ==> Parent(p) in nodes && nodes[Parent(p)] == Directory
  }

  /** Some proper ancestor of `p` is a regular file, so the system cannot look inside it. */
  predicate UnderFile(nodes: Nodes, p: Path) {
    exists k :: 0 <= k < |p| && p[..k] in nodes && nodes[p[..k]].File?
  }

  /**
   * The error for a path that does not exist: `NotADirectory` (ENOTDIR) when
   * the lookup meets a regular file on the way, `NotFound` (ENOENT) otherwise.
   */
  function MissingError(nodes: Nodes, p: Path): (e: IoError)
    ensures e == NotADirectory <==> UnderFile(nodes, p)
    ensures e == NotFound <==> !UnderFile(nodes, p)
  {
    if UnderFile(nodes, p) then NotADirectory else NotFound
  }

  /** The error `Deno.mkdirSync(p)` (non-recursive) raises, if any. */
  function MkdirError(nodes: Nodes, p: Path): (r: Option<IoError>)
    ensures r.None? <==> p !in nodes && p != [] && Parent(p) in nodes && nodes[Parent(p)] == Directory
    ensures p in nodes ==> r == Some(AlreadyExists)
    ensures p !in nodes && p != [] && Parent(p) !in nodes ==> r == Some(MissingError(nodes, Parent(p)))
    ensures p !in nodes && p != [] && Parent(p) in nodes && nodes[Parent(p)].File? ==> r == Some(NotADirectory)
  {
    if p in nodes || p == [] then Some(AlreadyExists)
    else if Parent(p) !in nodes then Some(MissingError(nodes, Parent(p)))
    else if nodes[Parent(p)] != Directory then Some(NotADirectory)
    else None
  }

  /** The file system after `Deno.mkdirSync(p)`, whether or not it raised. */
  function AfterMkdir(nodes: Nodes, p: Path): Nodes {
    if MkdirError(nodes, p).None? then nodes[p := Directory] else nodes
  }

  /** The error `Deno.writeTextFileSync(p, _, { create: true })` raises, if any. */
  function WriteError(nodes: Nodes, p: Path): (r: Option<IoError>)
    ensures r.None? <==> p != [] && Parent(p) in nodes && nodes[Parent(p)] == Directory && (p in nodes ==> nodes[p].File?)
    ensures p == [] || (p in nodes && nodes[p].Directory?) ==> r == Some(IsADirectory)
    ensures p != [] && p !in nodes && Parent(p) !in nodes ==> r == Some(MissingError(nodes, Parent(p)))
    ensures p != [] && !(p in nodes && nodes[p].Directory?) && Parent(p) in nodes && nodes[Parent(p)].File? ==> r == Some(NotADirectory)
  {
    if p == [] || (p in nodes && nodes[p] == Directory) then Some(IsADirectory)
    else if Parent(p) !in nodes then Some(MissingError(nodes, Parent(p)))
    else if nodes[Parent(p)] != Directory then Some(NotADirectory)
    else None
  }

  /** `Deno.readTextFile(p)`: the file's text, or the error it raises. */
  function ReadTextFile(nodes: Nodes, p: Path): (r: Result<Text, IoError>)
    ensures r.Success? <==> p in nodes && nodes[p].File?
    ensures r.Success? ==> r.value == nodes[p].text
    ensures p !in nodes ==> r == Failure(MissingError(nodes, p))
    ensures p in nodes && nodes[p].Directory? ==> r == Failure(IsADirectory)
  {
    if p !in nodes then Failure(MissingError(nodes, p))
    else match nodes[p]
      case Directory => Failure(IsADirectory)
      case File(t) => Success(t)
  }

  /** A path below a regular file is not in the file system, and reading it fails with `NotADirectory`. */
  lemma ReadBelowFile(nodes: Nodes, file: Path, rest: Path)
    requires IsTree(nodes) && file in nodes && nodes[file].File? && rest != []
    ensures ReadTextFile(nodes, file + rest) == Failure(NotADirectory)
  {
    var p := file + rest;
    assert p[..|file|] == file;
    if p in nodes {
      BelowFileAbsent(nodes, file, p);
    }
  }

  /** In a tree nothing lies strictly below a regular file. */
  lemma {:induction false} BelowFileAbsent(nodes: Nodes, file: Path, p: Path)
    requires IsTree(nodes) && file in nodes && nodes[file].File?
    requires |file| < |p| && p[..|file|] == file
    ensures p !in nodes
    decreases |p|
  {
    if p in nodes {
      var up := Parent(p);
      assert up[..|file|] == file by {
        assert forall i :: 0 <= i < |file| ==> up[i] == p[i];
      }
      if |up| > |file| {
        BelowFileAbsent(nodes, file, up);
      }
    }
  }

  lemma MkdirKeepsTree(nodes: Nodes, p: Path)
    requires IsTree(nodes)
    ensures IsTree(AfterMkdir(nodes, p))
  {
  }

  lemma WriteKeepsTree(nodes: Nodes, p: Path, t: Text)
    requires IsTree(nodes) && WriteError(nodes, p).None?
    ensures IsTree(nodes[p := File(t)])
  {
    var after := nodes[p := File(t)];
    forall q | q in after && q != []
      ensures Parent(q) in after && after[Parent(q)] == Directory
    {
      if q != p {
        assert q in nodes;
      }
    }
  }

  /** The machine's disk, which the commands change in place. */
  class Disk {
    var nodes: Nodes

    ghost predicate Valid()
      reads this
    {
      IsTree(nodes)
    }

    constructor ()
      ensures Valid() && nodes == map[[] := Directory]
    {
      nodes := map[[] := Directory];
    }

    /** `Deno.mkdirSync(p)`: creates one directory inside an existing one. */
    method Mkdir(p: Path) returns (err: Option<IoError>)
      requires Valid()
      modifies this
      ensures Valid()
      ensures err == MkdirError(old(nodes), p)
      ensures nodes == AfterMkdir(old(nodes), p)
      ensures err.None? ==> nodes == old(nodes)[p := Directory]
      ensures err.Some? ==> nodes == old(nodes)
    {
      MkdirKeepsTree(nodes, p);
      err := MkdirError(nodes, p);
      if err.None? {
        nodes := nodes[p := Directory];
      }
    }

    /** `Deno.writeTextFileSync(p, text, { create: true })`: creates or replaces a file. */
    method WriteTextFile(p: Path, t: Text) returns (err: Option<IoError>)
      requires Valid()
      modifies this
      ensures Valid()
      ensures err == WriteError(old(nodes), p)
      ensures err.None? ==> nodes == old(nodes)[p := File(t)]
      ensures err.Some? ==> nodes == old(nodes)
    {
      err := WriteError(nodes, p);
      if err.None? {
        WriteKeepsTree(nodes, p, t);
        nodes := nodes[p := File(t)];
      }
    }
  }
}
