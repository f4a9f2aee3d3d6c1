/**
 * The `list` command: read the entries of the save location, keep the
 * directories, read each one's metadata file, keep the records that were read
 * and validated, in entry order, and print them, or report that there is no
 * save data.
 */
module ListCommand {
  import opened Wrappers
  import opened Paths
  import opened FileSystem
  import opened Structs
  import opened Sidecar
  import ConfigOption
  import ListFormat
  import Sequences

  /** An entry of `Deno.readDirSync`. */
  datatype DirEntry = DirEntry(name: string, isDirectory: bool)

  /** A `PromiseSettledResult` of reading one metadata file. */
  datatype Settled<+T> = Fulfilled(value: T) | Rejected(reason: ReadFailure)
  {
    /** The `status` field. */
    function Status(): string {
      if Fulfilled? then "fulfilled" else "rejected"
    }
  }

  /** `isFulfilled(result)`: the status is "fulfilled". */
  function IsFulfilled<T>(result: Settled<T>): (b: bool)
    ensures b <==> result.Fulfilled?
  {
    result.Status() == "fulfilled"
  }

  /** `dirEntries.filter((dirEntry) => dirEntry.isDirectory)` */
  function SaveDirs(entries: seq<DirEntry>): (dirs: seq<DirEntry>)
    ensures |dirs| <= |entries|
    ensures forall e :: e in dirs <==> e in entries && e.isDirectory
  {
    if entries == [] then []
    else (if entries[0].isDirectory then [entries[0]] else []) + SaveDirs(entries[1..])
  }

  /** Filtering a concatenation filters each part, keeping their order. */
  lemma {:induction false} SaveDirsAppend(a: seq<DirEntry>, b: seq<DirEntry>)
    ensures SaveDirs(a + b) == SaveDirs(a) + SaveDirs(b)
    decreases |a|
  {
    if a == [] {
      assert a + b == b;
    } else {
      assert (a + b)[1..] == a[1..] + b;
      SaveDirsAppend(a[1..], b);
    }
  }

  /**
   * Where `list` reads the metadata file of the save directory `name`:
   * `path.join(config.saveLocation, name, "firesave-metadata.json")`, which
   * uses the save location as written in the configuration, resolved by
   * `readTextFile` against the working directory `cwd`.
   */
  function SidecarPath(cwd: Path, saveLocation: string, name: string): (p: Path)
    ensures IsName(name) ==> p == Resolve(cwd, saveLocation) + [name, METADATA_FILE]
  {
    if '/' in name then Resolve(cwd, JoinText(JoinText(saveLocation, name), METADATA_FILE))
    else
      var dir := Resolve(cwd, JoinText(saveLocation, name));
      ResolveJoinText(cwd, JoinText(saveLocation, name), METADATA_FILE);
      assert Join(dir, METADATA_FILE) == MetadataPath(dir);
      ResolveJoinText(cwd, saveLocation, name);
      Resolve(cwd, JoinText(JoinText(saveLocation, name), METADATA_FILE))
  }

  /** The outcome of one read as a settled promise. */
  function Settle(r: Result<SaveMetadata, ReadFailure>): (s: Settled<SaveMetadata>)
    ensures s.Fulfilled? <==> r.Success?
    ensures s.Fulfilled? ==> s.value == r.value
    ensures s.Rejected? ==> s.reason == r.error
  {
    match r
    case Success(m) => Fulfilled(m)
    case Failure(e) => Rejected(e)
  }

  /**
   * Reading and validating, on the file system `nodes`, the metadata file of
   * the save directory `name`, as `list` locates it.
   */
  function Reader(nodes: Nodes, cwd: Path, saveLocation: string): (read: string -> Result<SaveMetadata, ReadFailure>)
    ensures forall name :: IsName(name) ==>
      read(name) == ReadMetadataFile(nodes, Resolve(cwd, saveLocation) + [name, METADATA_FILE])
  {
    name => ReadMetadataFile(nodes, SidecarPath(cwd, saveLocation, name))
  }

  /** `Promise.allSettled` of reading the metadata file of each directory: one result per directory. */
  function ReadAll(read: string -> Result<SaveMetadata, ReadFailure>, dirs: seq<DirEntry>): (results: seq<Settled<SaveMetadata>>)
    ensures |results| == |dirs|
  {
    if dirs == [] then []
    else [Settle(read(dirs[0].name))] + ReadAll(read, dirs[1..])
  }

  /** The i-th result settles the read of the i-th directory: the results keep the directories' order. */
  lemma {:induction false} ReadAllAt(read: string -> Result<SaveMetadata, ReadFailure>, dirs: seq<DirEntry>)
    ensures forall i :: 0 <= i < |dirs| ==> ReadAll(read, dirs)[i] == Settle(read(dirs[i].name))
    decreases |dirs|
  {
    if dirs != [] {
      ReadAllAt(read, dirs[1..]);
      var results := ReadAll(read, dirs);
      forall i | 0 <= i < |dirs|
        ensures results[i] == Settle(read(dirs[i].name))
      {
        if i > 0 {
          assert results[i] == ReadAll(read, dirs[1..])[i - 1];
        }
      }
    }
  }

  /** `results.filter(isFulfilled).map((result) => result.value)` */
  function FulfilledValues(results: seq<Settled<SaveMetadata>>): (values: seq<SaveMetadata>)
    ensures |values| <= |results|
  {
    if results == [] then []
    else (if IsFulfilled(results[0]) then [results[0].value] else []) + FulfilledValues(results[1..])
  }

  /** The values kept are exactly those of the fulfilled results. */
  lemma {:induction false} FulfilledValuesMembers(results: seq<Settled<SaveMetadata>>)
    ensures forall v :: v in FulfilledValues(results) <==> Fulfilled(v) in results
  {
    if results != [] {
      FulfilledValuesMembers(results[1..]);
      assert results == [results[0]] + results[1..];
    }
  }

  /** Keeping the fulfilled values of a concatenation keeps those of each part, in order. */
  lemma {:induction false} FulfilledValuesAppend(a: seq<Settled<SaveMetadata>>, b: seq<Settled<SaveMetadata>>)
    ensures FulfilledValues(a + b) == FulfilledValues(a) + FulfilledValues(b)
    decreases |a|
  {
    if a == [] {
      assert a + b == b;
    } else {
      FulfilledValuesAppend(a[1..], b);
      var m := if IsFulfilled(a[0]) then [a[0].value] else [];
      assert FulfilledValues(a + b) == m + FulfilledValues(a[1..] + b) by {
        assert (a + b)[0] == a[0] && (a + b)[1..] == a[1..] + b;
      }
      Sequences.Rebracket(FulfilledValues(a + b), FulfilledValues(a), m, FulfilledValues(a[1..]), FulfilledValues(b));
    }
  }

  /** Reading the directories of a concatenation reads those of each part. */
  lemma {:induction false} ReadAllAppend(read: string -> Result<SaveMetadata, ReadFailure>, a: seq<DirEntry>, b: seq<DirEntry>)
    ensures ReadAll(read, a + b) == ReadAll(read, a) + ReadAll(read, b)
    decreases |a|
  {
    if a == [] {
      assert a + b == b;
    } else {
      assert (a + b)[1..] == a[1..] + b;
      ReadAllAppend(read, a[1..], b);
    }
  }

  /** The records `list` collects from the entries of the save location. */
  function CollectSaves(read: string -> Result<SaveMetadata, ReadFailure>, entries: seq<DirEntry>): (records: seq<SaveMetadata>)
    ensures |records| <= |entries|
  {
    FulfilledValues(ReadAll(read, SaveDirs(entries)))
  }

  /** Collecting from a concatenation of entries collects from each part, in entry order. */
  lemma CollectSavesAppend(read: string -> Result<SaveMetadata, ReadFailure>, a: seq<DirEntry>, b: seq<DirEntry>)
    ensures CollectSaves(read, a + b)
         == CollectSaves(read, a) + CollectSaves(read, b)
  {
    SaveDirsAppend(a, b);
    ReadAllAppend(read, SaveDirs(a), SaveDirs(b));
    FulfilledValuesAppend(ReadAll(read, SaveDirs(a)), ReadAll(read, SaveDirs(b)));
  }

  /**
   * What one entry contributes: nothing when it is not a directory or its
   * metadata file fails to read or validate, and the record read otherwise.
   */
  lemma CollectSavesOne(read: string -> Result<SaveMetadata, ReadFailure>, e: DirEntry)
    ensures var r := read(e.name);
      CollectSaves(read, [e]) == if e.isDirectory && r.Success? then [r.value] else []
  {
    assert [e][1..] == [];
    if e.isDirectory {
      var results := ReadAll(read, [e]);
      assert results[1..] == [];
    }
  }

  /**
   * An entry that is not a directory, or whose metadata file fails to read or
   * validate, is skipped without removing any other entry's record.
   */
  lemma SkippedEntry(read: string -> Result<SaveMetadata, ReadFailure>, a: seq<DirEntry>, e: DirEntry, b: seq<DirEntry>)
    requires !e.isDirectory || read(e.name).Failure?
    ensures CollectSaves(read, a + [e] + b)
         == CollectSaves(read, a) + CollectSaves(read, b)
  {
    CollectSavesAppend(read, a + [e], b);
    CollectSavesAppend(read, a, [e]);
    CollectSavesOne(read, e);
  }

  /**
   * A record is collected exactly when some directory entry's metadata file
   * reads and validates as it.
   */
  lemma CollectedRecords(read: string -> Result<SaveMetadata, ReadFailure>, entries: seq<DirEntry>, m: SaveMetadata)
    ensures m in CollectSaves(read, entries) <==>
      exists i :: 0 <= i < |entries| && entries[i].isDirectory
        && read(entries[i].name) == Success(m)
  {
    var dirs := SaveDirs(entries);
    var results := ReadAll(read, dirs);
    ReadAllAt(read, dirs);
    FulfilledValuesMembers(results);
    if m in CollectSaves(read, entries) {
      var k :| 0 <= k < |results| && results[k] == Fulfilled(m);
      assert dirs[k] in entries;
      var i :| 0 <= i < |entries| && entries[i] == dirs[k];
      assert read(entries[i].name) == Success(m);
    }
    if exists i :: 0 <= i < |entries| && entries[i].isDirectory
        && read(entries[i].name) == Success(m) {
      var i :| 0 <= i < |entries| && entries[i].isDirectory
        && read(entries[i].name) == Success(m);
      assert entries[i] in dirs;
      var k :| 0 <= k < |dirs| && dirs[k] == entries[i];
      assert results[k] == Fulfilled(m);
    }
  }

  /**
   * When the save location resolves against the working directory, `list`
   * reads the metadata file of the directory `name` where `save` writes it.
   */
  lemma SidecarWhereSaved(cwd: Path, config: ConfigOption.ExtendedConfig, name: string)
    requires config.resolvedSaveLocation == Resolve(cwd, config.base.saveLocation)
    requires IsName(name)
    ensures SidecarPath(cwd, config.base.saveLocation, name) == MetadataPath(Join(config.resolvedSaveLocation, name))
  {
    var under := Resolve(cwd, config.base.saveLocation);
    assert SidecarPath(cwd, config.base.saveLocation, name) == under + [name, METADATA_FILE];
    assert Join(config.resolvedSaveLocation, name) == under + [name];
    assert under + [name] + [METADATA_FILE] == under + [name, METADATA_FILE];
  }

  /**
   * With the configuration loaded from the default path ".", `list` reads a
   * save's metadata file exactly where `save` writes it, for every save name
   * that is a single path segment.
   */
  lemma DefaultConfigSidecarAgrees(nodes: Nodes, cwd: Path, name: string)
    requires ConfigOption.LoadConfig(nodes, cwd, ConfigOption.DEFAULT_CONFIG_PATH).Loaded?
    requires IsName(name)
    ensures var config := ConfigOption.LoadConfig(nodes, cwd, ConfigOption.DEFAULT_CONFIG_PATH).config;
      SidecarPath(cwd, config.base.saveLocation, name) == MetadataPath(Join(config.resolvedSaveLocation, name))
  {
    var config := ConfigOption.LoadConfig(nodes, cwd, ConfigOption.DEFAULT_CONFIG_PATH).config;
    assert config.resolvedSaveLocation == Resolve(cwd, config.base.saveLocation);
    SidecarWhereSaved(cwd, config, name);
  }

  /**
   * What `list` reads in the save directory `name` after `save` wrote
   * `record` there: when the save location resolves against the working
   * directory, as it does for the configuration loaded from the default path
   * ".", the record read back is the one written, if its name is not empty.
   */
  lemma ListReadsSavedRecord(nodes: Nodes, cwd: Path, config: ConfigOption.ExtendedConfig, name: string, record: SaveMetadata)
    requires config.resolvedSaveLocation == Resolve(cwd, config.base.saveLocation)
    requires IsName(name) && record.name != ""
    ensures var written := nodes[MetadataPath(Join(config.resolvedSaveLocation, name)) := File(Encode(record))];
      Reader(written, cwd, config.base.saveLocation)(name) == Success(record)
  {
    var file := MetadataPath(Join(config.resolvedSaveLocation, name));
    SidecarWhereSaved(cwd, config, name);
    WriteThenRead(nodes, file, record);
  }

  /**
   * The `list` handler. `listing` is what `Deno.readDirSync` of the resolved
   * save location returned, in its order, or `None` when it threw; `read`
   * reads and validates the metadata file of a save directory by its name, as
   * `Reader` does on a file system; `localDate` reads a save time as a local
   * `Date`. The result is the lines printed and the code of the explicit
   * `Deno.exit`, if there was one.
   */
  method List(read: string -> Result<SaveMetadata, ReadFailure>, config: ConfigOption.ExtendedConfig, listing: Option<seq<DirEntry>>, localDate: string -> ListFormat.DateParts)
    returns (lines: seq<ListFormat.Line>, exitCode: Option<int>)
    ensures listing.None? ==>
      lines == [ListFormat.NoSaveData(ToString(config.resolvedSaveLocation))] && exitCode == Some(0)
    ensures listing.Some? && CollectSaves(read, listing.value) == [] ==>
      lines == [ListFormat.NoSaveData(ToString(config.resolvedSaveLocation))] && exitCode == Some(0)
    ensures listing.Some? && CollectSaves(read, listing.value) != [] ==>
      lines == ListFormat.Layout(CollectSaves(read, listing.value), config.base.saveLocation, ListFormat.DateText(localDate))
      && exitCode.None?
  {
    if listing.None? {
      return [ListFormat.NoSaveData(ToString(config.resolvedSaveLocation))], Some(0);
    }
    var saveDirs := SaveDirs(listing.value);
    var results := ReadAll(read, saveDirs);
    var metadataArr := FulfilledValues(results);
    if |metadataArr| == 0 {
      return [ListFormat.NoSaveData(ToString(config.resolvedSaveLocation))], Some(0);
    }
    lines := ListFormat.FormatSaves(metadataArr, config.base.saveLocation, localDate);
    exitCode := None;
  }
}
