/**
 * The `save` command: create the save directory, export the emulator data
 * into it, and write the save's metadata file, inheriting the previous
 * description when none is given.
 */
module SaveCommand {
  import opened Wrappers
  import opened Paths
  import opened FileSystem
  import opened Structs
  import opened Sidecar
  import ConfigOption
  import SaveNames

  /** The program spawned for the export; `firebaseCmd` from the configuration is not consulted. */
  const EXPORT_COMMAND := "firebase emulators:export"

  /** What `getMetadata` ends in. */
  datatype Lookup =
    | Previous(record: SaveMetadata)   // the record read
    | NoPrevious                       // `undefined`: there is no metadata file
    | LookupExit(code: int)            // `logErrorAndExit`: the file fails the schema
    | LookupThrew(failure: ReadFailure) // any other error is rethrown

  /**
   * `getMetadata(savePath)`: a missing file means there is no previous save, a
   * file that fails the schema is fatal, and every other failure is rethrown.
   */
  function GetMetadata(nodes: Nodes, savePath: Path): (r: Lookup)
    ensures r.Previous? ==> r.record.name != ""
    ensures r.LookupExit? ==> r.code == 1
  {
    match ReadMetadataFile(nodes, MetadataPath(savePath))
    case Success(m) => Previous(m)
    case Failure(Invalid(_)) => LookupExit(1)
    case Failure(Io(NotFound)) => NoPrevious
    case Failure(failure) => LookupThrew(failure)
  }

  /**
   * `getMetadata` sorts the outcomes of reading the metadata file: a record,
   * absence on `NotFound`, exit code 1 on a schema error, and every other
   * failure (a syntax error, a directory in the file's place) rethrown.
   */
  lemma GetMetadataClassifies(nodes: Nodes, savePath: Path)
    ensures var read := ReadMetadataFile(nodes, MetadataPath(savePath));
      var r := GetMetadata(nodes, savePath);
      && (r.Previous? <==> read.Success?)
      && (r.Previous? ==> r.record == read.value)
      && (r.NoPrevious? <==> read == Failure(Io(NotFound)))
      && (r.LookupExit? <==> read.Failure? && read.error.Invalid?)
      && (r.LookupExit? ==> r.code == 1)
      && (r.LookupThrew? ==> r.failure == read.error && read.error != Io(NotFound) && !read.error.Invalid?)
  {
    match ReadMetadataFile(nodes, MetadataPath(savePath))
    case Success(m) =>
    case Failure(failure) =>
  }

  /** A directory in the metadata file's place is not "absent": `getMetadata` rethrows `IsADirectory`. */
  lemma DirectoryInPlaceRethrows(nodes: Nodes, savePath: Path)
    requires MetadataPath(savePath) in nodes && nodes[MetadataPath(savePath)] == Directory
    ensures GetMetadata(nodes, savePath) == LookupThrew(Io(IsADirectory))
  {
    ReadMetadataFileClassifies(nodes, MetadataPath(savePath));
  }

  /** The record read, when there was one. */
  function PreviousRecord(lookup: Lookup): Option<SaveMetadata> {
    if lookup.Previous? then Some(lookup.record) else None
  }

  /** `path.join(config.resolvedSaveLocation, name)` */
  function SavePath(config: ConfigOption.ExtendedConfig, name: string): (p: Path)
    ensures name == "" ==> p == config.resolvedSaveLocation
    ensures IsName(name) ==> p == config.resolvedSaveLocation + [name]
  {
    Join(config.resolvedSaveLocation, name)
  }

  /**
   * The record `save` writes: the given name, the current time, the autosave
   * flag, and the description given, else the previous record's, else none
   * (`description ?? prevMetadata?.description`; an empty description given
   * is kept, since `??` only skips `undefined`).
   */
  function NewRecord(name: string, description: Option<string>, previous: Option<SaveMetadata>, now: string, isAutoSave: bool): (m: SaveMetadata)
    ensures m.name == name && m.saveTime == now && m.isAutosave == isAutoSave
    ensures description.Some? ==> m.description == description
    ensures description.None? && previous.Some? ==> m.description == previous.value.description
    ensures description.None? && previous.None? ==> m.description.None?
  {
    SaveMetadata(name, if description.Some? then description else if previous.Some? then previous.value.description else None, now, isAutoSave)
  }

  /** The steps `save` takes, in the order it takes them. */
  datatype Effect =
    | MakeDirectory(path: Path)
    | SpawnExport(command: string, target: Path)
    | ReadMetadata(path: Path)
    | AwaitExport
    | WriteMetadata(path: Path)

  /** Every write of a metadata file comes after the export has been awaited. */
  predicate WrittenAfterExport(effects: seq<Effect>) {
    forall i :: 0 <= i < |effects| && effects[i].WriteMetadata? ==> AwaitExport in effects[..i]
  }

  datatype SaveError = MkdirFailed(mkdirError: IoError) | MetadataFailed(readFailure: ReadFailure) | WriteFailed(writeError: IoError)

  /** What `save` ends in: the record written, a thrown error, or `Deno.exit(code)`. */
  datatype SaveOutcome = Saved(record: SaveMetadata) | SaveThrew(error: SaveError) | SaveExit(code: int)

  /** A run of `save`: how it ended, the steps it took, and the file system it left. */
  datatype SaveRun = SaveRun(outcome: SaveOutcome, effects: seq<Effect>, nodes: Nodes)

  /**
   * What `save` does to the file system `nodes`, saving into `savePath`.
   * Creating the directory tolerates only "already exists"; any other failure
   * is rethrown before anything else happens. Every run starts by creating the
   * directory and writes metadata only after the export has been awaited.
   */
  function SaveEffects(nodes: Nodes, savePath: Path, name: string, description: Option<string>, isAutoSave: bool, now: string): (run: SaveRun)
    ensures WrittenAfterExport(run.effects)
    ensures |run.effects| >= 1 && run.effects[0] == MakeDirectory(savePath)
    ensures !MkdirTolerated(nodes, savePath) <==> run.outcome.SaveThrew? && run.outcome.error.MkdirFailed?
    ensures !MkdirTolerated(nodes, savePath) ==>
      && run.outcome.error == MkdirFailed(MkdirError(nodes, savePath).value)
      && run.effects == [MakeDirectory(savePath)]
      && run.nodes == nodes
    ensures MkdirTolerated(nodes, savePath) ==>
      run == ExportRun(AfterMkdir(nodes, savePath), savePath, name, description, isAutoSave, now)
  {
    if !MkdirTolerated(nodes, savePath) then
      SaveRun(SaveThrew(MkdirFailed(MkdirError(nodes, savePath).value)), [MakeDirectory(savePath)], nodes)
    else
      ExportRun(AfterMkdir(nodes, savePath), savePath, name, description, isAutoSave, now)
  }

  /**
   * What `save` does once the directory `savePath` is in place in `prepared`:
   * a previous metadata file that fails the schema exits with code 1 and any
   * other read failure is rethrown, in both cases before anything is written;
   * otherwise the new record is written once the export has been awaited,
   * replacing any previous metadata file, and nothing else changes.
   */
  function ExportRun(prepared: Nodes, savePath: Path, name: string, description: Option<string>, isAutoSave: bool, now: string): (run: SaveRun)
    ensures WrittenAfterExport(run.effects)
    ensures |run.effects| >= 3 && run.effects[..3] == StepsUntilRead(savePath)
    ensures run.outcome.SaveThrew? ==> !run.outcome.error.MkdirFailed?
    ensures var lookup := GetMetadata(prepared, savePath);
      run.outcome.SaveExit? <==> lookup.LookupExit?
    ensures run.outcome.SaveExit? ==> run.outcome.code == 1
    ensures !run.outcome.Saved? ==> run.nodes == prepared
    ensures var lookup := GetMetadata(prepared, savePath);
      run.outcome.Saved? <==> (lookup.Previous? || lookup.NoPrevious?) && WriteError(prepared, MetadataPath(savePath)).None?
    ensures run.outcome.Saved? ==>
      run.outcome.record == NewRecord(name, description, PreviousRecord(GetMetadata(prepared, savePath)), now, isAutoSave)
    ensures run.outcome.Saved? ==>
      run.nodes == prepared[MetadataPath(savePath) := File(Encode(run.outcome.record))]
    ensures run.outcome.Saved? ==> run.effects == StepsUntilWrite(savePath)
    ensures var lookup := GetMetadata(prepared, savePath);
      lookup.LookupThrew? ==> run.outcome == SaveThrew(MetadataFailed(lookup.failure))
    ensures var lookup := GetMetadata(prepared, savePath);
      lookup.LookupExit? || lookup.LookupThrew? ==> run.effects == StepsUntilRead(savePath)
    ensures var lookup := GetMetadata(prepared, savePath);
      var writeError := WriteError(prepared, MetadataPath(savePath));
      (lookup.Previous? || lookup.NoPrevious?) && writeError.Some? ==>
        run.outcome == SaveThrew(WriteFailed(writeError.value)) && run.effects == StepsUntilWrite(savePath)
  {
    var metaPath := MetadataPath(savePath);
    var lookup := GetMetadata(prepared, savePath);
    GetMetadataClassifies(prepared, savePath);
    if lookup.LookupExit? then SaveRun(SaveExit(lookup.code), StepsUntilRead(savePath), prepared)
    else if lookup.LookupThrew? then SaveRun(SaveThrew(MetadataFailed(lookup.failure)), StepsUntilRead(savePath), prepared)
    else
      var record := NewRecord(name, description, PreviousRecord(lookup), now, isAutoSave);
      var writeError := WriteError(prepared, metaPath);
      if writeError.Some? then SaveRun(SaveThrew(WriteFailed(writeError.value)), StepsUntilWrite(savePath), prepared)
      else SaveRun(Saved(record), StepsUntilWrite(savePath), prepared[metaPath := File(Encode(record))])
  }

  /** The steps up to reading the previous metadata: create the directory, spawn the export, read. */
  function StepsUntilRead(savePath: Path): (effects: seq<Effect>)
    ensures |effects| == 3
    ensures effects[0] == MakeDirectory(savePath) && effects[1].SpawnExport? && effects[1].target == savePath
    ensures effects[2] == ReadMetadata(MetadataPath(savePath))
    ensures forall e :: e in effects ==> !e.WriteMetadata? && !e.AwaitExport?
  {
    [MakeDirectory(savePath), SpawnExport(EXPORT_COMMAND, savePath), ReadMetadata(MetadataPath(savePath))]
  }

  /** All the steps of a save that reaches the write: the metadata file is written after the export is awaited. */
  function StepsUntilWrite(savePath: Path): (effects: seq<Effect>)
    ensures WrittenAfterExport(effects)
    ensures effects == StepsUntilRead(savePath) + [AwaitExport, WriteMetadata(MetadataPath(savePath))]
  {
    AwaitThenWrite(StepsUntilRead(savePath), MetadataPath(savePath));
    StepsUntilRead(savePath) + [AwaitExport, WriteMetadata(MetadataPath(savePath))]
  }

  /** Writing right after awaiting the export keeps every write after an await. */
  lemma AwaitThenWrite(prefix: seq<Effect>, file: Path)
    requires WrittenAfterExport(prefix)
    ensures WrittenAfterExport(prefix + [AwaitExport, WriteMetadata(file)])
  {
    var effects := prefix + [AwaitExport, WriteMetadata(file)];
    forall i | 0 <= i < |effects| && effects[i].WriteMetadata?
      ensures AwaitExport in effects[..i]
    {
      if i < |prefix| {
        assert effects[..i] == prefix[..i];
      } else {
        assert effects[..i][|prefix|] == AwaitExport;
      }
    }
  }

  /** `mkdirSync` succeeded, or failed only because the directory already exists. */
  predicate MkdirTolerated(nodes: Nodes, savePath: Path) {
    var mkdirError := MkdirError(nodes, savePath);
    mkdirError.None? || mkdirError.value == AlreadyExists
  }

  /**
   * `save({ name, config, description, isAutoSave })` on the disk, with `now`
   * the clock's ISO-8601 reading once the export has finished. The export
   * process itself is opaque: it appears only as the steps it is spawned and
   * awaited in.
   */
  method Save(disk: Disk, config: ConfigOption.ExtendedConfig, name: string, description: Option<string>, isAutoSave: Option<bool>, now: string)
    returns (outcome: SaveOutcome, effects: seq<Effect>)
    requires disk.Valid()
    modifies disk
    ensures disk.Valid()
    ensures SaveRun(outcome, effects, disk.nodes) ==
            SaveEffects(old(disk.nodes), SavePath(config, name), name, description, isAutoSave == Some(true), now)
  {
    var savePath := SavePath(config, name);
    var mkdirError := disk.Mkdir(savePath);
    if mkdirError.Some? && mkdirError.value != AlreadyExists {
      return SaveThrew(MkdirFailed(mkdirError.value)), [MakeDirectory(savePath)];
    }
    outcome, effects := ExportAndRecord(disk, savePath, name, description, isAutoSave == Some(true), now);
  }

  /** The part of `save` after `mkdirSync`: spawn the export, read the previous record, await, write. */
  method ExportAndRecord(disk: Disk, savePath: Path, name: string, description: Option<string>, isAutoSave: bool, now: string)
    returns (outcome: SaveOutcome, effects: seq<Effect>)
    requires disk.Valid()
    modifies disk
    ensures disk.Valid()
    ensures SaveRun(outcome, effects, disk.nodes) == ExportRun(old(disk.nodes), savePath, name, description, isAutoSave, now)
  {
    var metaPath := MetadataPath(savePath);
    effects := [MakeDirectory(savePath), SpawnExport(EXPORT_COMMAND, savePath), ReadMetadata(metaPath)];
    var lookup := GetMetadata(disk.nodes, savePath);
    if lookup.LookupExit? {
      return SaveExit(lookup.code), effects;
    } else if lookup.LookupThrew? {
      return SaveThrew(MetadataFailed(lookup.failure)), effects;
    }
    var record := NewRecord(name, description, PreviousRecord(lookup), now, isAutoSave);
    effects := effects + [AwaitExport, WriteMetadata(metaPath)];
    var writeError := disk.WriteTextFile(metaPath, Encode(record));
    if writeError.Some? {
      outcome := SaveThrew(WriteFailed(writeError.value));
    } else {
      outcome := Saved(record);
    }
  }

  /**
   * Saving under a name that is already a regular file: `mkdirSync` fails
   * with "already exists", which is tolerated, but reading the metadata file
   * below that file fails with `NotADirectory`, which `getMetadata` rethrows.
   * The save ends before the export is awaited, and nothing is written.
   */
  lemma SaveOverFileRethrows(nodes: Nodes, savePath: Path, name: string, description: Option<string>, isAutoSave: bool, now: string)
    requires IsTree(nodes) && savePath in nodes && nodes[savePath].File?
    ensures GetMetadata(nodes, savePath) == LookupThrew(Io(NotADirectory))
    ensures var run := SaveEffects(nodes, savePath, name, description, isAutoSave, now);
      && run.outcome == SaveThrew(MetadataFailed(Io(NotADirectory)))
      && run.effects == StepsUntilRead(savePath)
      && run.nodes == nodes
  {
    ReadBelowFile(nodes, savePath, [METADATA_FILE]);
    assert AfterMkdir(nodes, savePath) == nodes;
  }

  /** When the record is saved under a non-empty name, the next save reads it back as the previous record. */
  lemma SaveThenReadBack(nodes: Nodes, savePath: Path, name: string, description: Option<string>, isAutoSave: bool, now: string)
    requires name != ""
    requires SaveEffects(nodes, savePath, name, description, isAutoSave, now).outcome.Saved?
    ensures var run := SaveEffects(nodes, savePath, name, description, isAutoSave, now);
      GetMetadata(run.nodes, savePath) == Previous(run.outcome.record)
  {
    var run := SaveEffects(nodes, savePath, name, description, isAutoSave, now);
    SavedRecordReadsBack(AfterMkdir(nodes, savePath), savePath, run.outcome.record);
  }

  /** The record a save writes is what the next save reads as the previous one, when its name is not empty. */
  lemma SavedRecordReadsBack(nodes: Nodes, savePath: Path, record: SaveMetadata)
    requires record.name != ""
    ensures GetMetadata(nodes[MetadataPath(savePath) := File(Encode(record))], savePath) == Previous(record)
  {
    WriteThenRead(nodes, MetadataPath(savePath), record);
  }

  /**
   * The empty name passes `legalFileName`, so `save` runs with it: the save
   * path is the save location itself, and the record it writes, whose name is
   * empty, fails the schema when read back, so the next save into it exits.
   */
  lemma EmptyNameSaveUnreadable(nodes: Nodes, config: ConfigOption.ExtendedConfig, description: Option<string>, isAutoSave: bool, now: string)
    requires SaveEffects(nodes, SavePath(config, ""), "", description, isAutoSave, now).outcome.Saved?
    ensures SaveNames.LegalFileName("").Success?
    ensures SavePath(config, "") == config.resolvedSaveLocation
    ensures var run := SaveEffects(nodes, SavePath(config, ""), "", description, isAutoSave, now);
      GetMetadata(run.nodes, SavePath(config, "")) == LookupExit(1)
  {
    SaveNames.EmptyNameAccepted();
    var savePath := SavePath(config, "");
    var run := SaveEffects(nodes, savePath, "", description, isAutoSave, now);
    WriteThenReadEmptyName(AfterMkdir(nodes, savePath), MetadataPath(savePath), run.outcome.record);
  }

  /**
   * With the save name checked by `LegalSaveName`, a saved record sits in its
   * own directory under the save location and the next save reads it back.
   */
  lemma LegalSaveNameReadsBack(nodes: Nodes, config: ConfigOption.ExtendedConfig, name: string, description: Option<string>, isAutoSave: bool, now: string)
    requires SaveNames.LegalSaveName(name).Success?
    requires SaveEffects(nodes, SavePath(config, name), name, description, isAutoSave, now).outcome.Saved?
    ensures SavePath(config, name) == config.resolvedSaveLocation + [name]
    ensures var run := SaveEffects(nodes, SavePath(config, name), name, description, isAutoSave, now);
      GetMetadata(run.nodes, SavePath(config, name)) == Previous(run.outcome.record)
  {
    SaveThenReadBack(nodes, SavePath(config, name), name, description, isAutoSave, now);
  }
}
