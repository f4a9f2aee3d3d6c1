# firesave in Dafny

firesave is a small Deno command-line tool that keeps named snapshots
("saves") of a Firebase emulator export. Each save is a directory under the
configured save location. The directory holds the exported data and a metadata
file, `firesave-metadata.json`, which records the save's name, an optional
description, the save time and whether it was an autosave.

This project models the deterministic core of the tool and proves properties
of that model:

- **Save names** (`findInvalidCharacters`, `legalFileName`): which characters
  are matched as invalid, in which order, and the error message that lists
  them.
- **The metadata schema** (`SaveMetadataStruct`) and the superstruct
  combinators it is built from: `nonempty(string())`, `string()`, `optional`
  and `defaulted`, all applied with masking.
- **The `--config` option** (`ConfigStruct`, `loadConfig`): defaults, the
  fallback for unreadable files, exit code 1 on an invalid file, and the two
  resolved paths.
- **The `save` command**, as a method over a mutable disk. It creates the
  directory (tolerating "already exists"), spawns the export, reads the
  previous record with `getMetadata`, awaits the export, and writes the new
  record. The method returns the steps it took, so that their order can be
  stated.
- **The `list` command**: the filter/map/settle pipeline over the entries of
  the save location, `isFulfilled`, the exit-0 cases, `formatISODate`, and
  the line layout printed by `formatSaves` (a loop, modelled as a method that
  appends to the output).

Supporting modules:

- `Paths` models `@std/path`'s `join` and `resolve` on POSIX paths. A path is
  a sequence of segments, and `.`, `..` and empty segments are normalised.
- `JsonText` models a file's text. The text either parses to a JSON value or
  is rejected by `JSON.parse`.
- `FileSystem` models the disk as a map from absolute paths to directories and
  text files. It includes `mkdirSync`, `readTextFile` and `writeTextFileSync`.

Two facts about `save` shape its model:

- The exit status of the export is never read. The metadata file is written
  once `process.output()` settles, whatever the export's status was.
- `firebaseCmd` is read into the configuration but never used. The command
  spawned is always `"firebase emulators:export"`.

## Model

| member | source | states |
|---|---|---|
| SaveNames.FindInvalidCharacters | src/commands/save.ts:11-14 | no match exactly when every character is in `[a-zA-Z0-9 _.-]` and the name does not end with '.'; each character outside the class occurs among the matches as often as in the name, plus one '.' for a final period |
| SaveNames.FindInvalidCharactersLength | src/commands/save.ts:12 | the number of matches is the number of positions holding a character outside the class, plus one when the name ends with '.' |
| SaveNames.DisallowedCounts | src/commands/save.ts:12 | the class matches keep every occurrence of each character outside the class (duplicates kept) and never an allowed one |
| SaveNames.DisallowedConcat | src/commands/save.ts:12 | matching is left to right: the matches in `a + b` are those in `a` followed by those in `b` |
| SaveNames.DisallowedEmptyIff | src/commands/save.ts:12 | the class has no match exactly when every character is allowed |
| SaveNames.QuoteJoin | src/commands/save.ts:23 | the joined list is empty exactly for no characters; otherwise it is 4n-1 characters long and starts with the first character quoted |
| SaveNames.QuoteJoinLayout | src/commands/save.ts:23 | the joined list is 4n-1 characters long; its i-th entry is the i-th character in quotes, and the entries are separated by commas |
| SaveNames.LegalFileName | src/commands/save.ts:17-29 | accepts exactly the names without invalid characters and returns them unchanged; a rejection message starts with "Illegal characters used: " |
| SaveNames.RejectionListsEveryMatch | src/commands/save.ts:19-27 | after the prefix, a rejection message lists every invalid character in order, each quoted, separated by commas |
| SaveNames.EmptyNameAccepted | src/commands/save.ts:11-29 | the empty name has no invalid characters, so `legalFileName` accepts it |
| SaveNames.LegalSaveName | src/commands/save.ts:17-29 | the corrected validator: accepts exactly the non-empty names `legalFileName` accepts, and each accepted name is one path segment (non-empty, without '/', not "." or "..") |
| Schema.NonEmptyString | src/structs.ts:11 | succeeds exactly when the key holds a non-empty string, with that string as the value; otherwise the error names the key |
| Schema.OptionalString | src/structs.ts:12 | succeeds exactly when the key is absent or holds a string; absent gives no value |
| Schema.RequiredString | src/structs.ts:13 | succeeds exactly when the key holds a string (of any format) |
| Schema.DefaultedBool | src/structs.ts:14 | succeeds exactly when the key is absent or holds a boolean; absent gives the default |
| Schema.OptionalNumber | src/args/config-option.ts:18 | succeeds exactly when the key is absent or holds a number; absent gives no value |
| Schema.DefaultedString | src/args/config-option.ts:19-23 | succeeds exactly when the key is absent or holds a string; absent gives the default |
| Structs.ValidateMetadata | src/structs.ts:10-15 | accepts exactly the objects the schema describes (non-empty `name`, optional string `description`, string `saveTime`, optional boolean `isAutosave`); the record holds the object's fields, with `isAutosave` false when absent; a non-object is refused |
| Structs.ToJson | src/commands/save.ts:79-88 | the object written for a record describes that record; an absent description is left out |
| Structs.DescribesUnique | src/structs.ts:10-15 | an object describes at most one record |
| Structs.MetadataRoundTrip | src/commands/save.ts:79-97 | a record with a non-empty name, written out and validated again, is the same record |
| Structs.EmptyNameRejected | src/structs.ts:11 | a record with an empty name, written out and validated again, fails on `name` |
| JsonText.Parse | src/commands/save.ts:97 | parsing succeeds exactly on parsable text, giving its value |
| JsonText.Stringify | src/commands/save.ts:88 | the text written parses back to the value written |
| FileSystem.MissingError | src/commands/save.ts:95-96 | a missing path is NotADirectory exactly when some proper prefix of it is a regular file, and NotFound otherwise |
| FileSystem.MkdirError | src/commands/save.ts:64 | `mkdirSync` succeeds exactly when the path is new and its parent is an existing directory; an existing path gives AlreadyExists; a parent that is a regular file gives NotADirectory; a missing parent gives NotADirectory below a regular file and NotFound otherwise |
| FileSystem.WriteError | src/commands/save.ts:86-90 | writing with `create: true` succeeds exactly when the parent is a directory and the path is not a directory; a directory in the path's place gives IsADirectory, a parent that is a regular file gives NotADirectory, and a missing parent gives the error of a missing path |
| FileSystem.ReadTextFile | src/commands/save.ts:95-96 | reading succeeds exactly on a file, giving its text; a directory gives IsADirectory; a missing path gives NotADirectory when it lies below a regular file and NotFound otherwise |
| FileSystem.BelowFileAbsent | src/commands/save.ts:95-96 | in a tree nothing exists below a regular file |
| FileSystem.ReadBelowFile | src/commands/save.ts:95-96 | reading a path below a regular file fails with NotADirectory |
| FileSystem.MkdirKeepsTree | src/commands/save.ts:64 | creating a directory keeps the file system a tree |
| FileSystem.WriteKeepsTree | src/commands/save.ts:86-90 | a successful write keeps the file system a tree |
| FileSystem.Disk.Mkdir | src/commands/save.ts:64 | adds exactly the new directory on success and changes nothing on failure; returns the error `mkdirSync` raises |
| FileSystem.Disk.WriteTextFile | src/commands/save.ts:86-90 | creates or replaces exactly the one file on success and changes nothing on failure |
| Paths.Join | src/commands/save.ts:62 | joining a plain name adds exactly that segment; joining "" or "." adds none |
| Paths.Resolve | src/args/config-option.ts:41 | resolving "." gives the base path; resolving a plain name adds exactly that segment |
| Paths.ResolveJoinText | src/commands/list.ts:52 | resolving `join(a, b)` is resolving `a` and then joining `b`, when `b` holds no '/' |
| Paths.ResolveToString | src/commands/list.ts:43 | the printed text of a resolved path resolves back to the same path |
| Sidecar.MetadataPath | src/commands/save.ts:87 | the metadata file is the one segment "firesave-metadata.json" below the save directory |
| Sidecar.Encode | src/commands/save.ts:88 | the text written parses back to an object that describes the record |
| Sidecar.ReadMetadataFile | src/commands/save.ts:95-97 | a record read from a metadata file always has a non-empty name |
| Sidecar.ReadMetadataFileClassifies | src/commands/save.ts:95-97 | a metadata file reads as a record exactly when it exists, parses and passes the schema; missing is NotFound, or NotADirectory below a regular file, a directory in its place is IsADirectory, unparsable is a syntax error, refused by the schema is a schema error |
| Sidecar.WriteThenRead | src/commands/save.ts:86-97 | a record with a non-empty name, written to a path, reads back from it unchanged |
| Sidecar.WriteThenReadEmptyName | src/structs.ts:11 | a record with an empty name, written to a path, reads back as a schema error on `name` |
| ConfigOption.ValidateConfig | src/args/config-option.ts:17-24 | accepts exactly the objects whose present fields have their types; the configuration takes each present field and each absent field's default |
| ConfigOption.MaskEmptyIsDefaults | src/args/config-option.ts:58 | masking `{}` gives `saveLocation` "firesave", `autoSaveName` "autosave", `exportOnExit` false, `defaultLoadedSave` "autosave", `firebaseCmd` "firebase" and no `autoSaveFrequency` |
| ConfigOption.ReadConfigJson | src/args/config-option.ts:45-47 | gives a value exactly when the location is a file whose text parses |
| ConfigOption.Extend | src/args/config-option.ts:62-71 | keeps the configuration and adds the config location and the save location resolved against it |
| ConfigOption.LoadConfig | src/args/config-option.ts:39-72 | exits with code 1 exactly when the file parses but fails validation; an unreadable or unparsable file gives the defaults; otherwise the validated fields; the config location is `resolve(cwd, relPath)` and the save location is resolved against it |
| ConfigOption.LoadedFieldsOverrideDefaults | src/args/config-option.ts:48-56 | every well-typed field present in the file overrides its default, and every absent field keeps it |
| ConfigOption.DefaultPathGivesDefaults | src/args/config-option.ts:78 | without `--config` the path "." is the working directory; a directory does not read as a file, so the result is the defaults with saves under `<cwd>/firesave` |
| SaveCommand.GetMetadata | src/commands/save.ts:93-110 | a previous record found has a non-empty name, and an exit is always with code 1 |
| SaveCommand.GetMetadataClassifies | src/commands/save.ts:93-110 | `getMetadata` gives the record read, absence exactly on NotFound, exit code 1 exactly on a schema error, and rethrows every other failure |
| SaveCommand.SavePath | src/commands/save.ts:62 | the save directory is the resolved save location itself for the empty name, and one segment below it for a plain name |
| SaveCommand.DirectoryInPlaceRethrows | src/commands/save.ts:93-110 | a directory in the metadata file's place is not taken as absence: `getMetadata` rethrows IsADirectory |
| SaveCommand.NewRecord | src/commands/save.ts:79-84 | the record has the given name, the current time and the autosave flag; its description is the one given, else the previous record's, else absent |
| SaveCommand.SaveEffects | src/commands/save.ts:59-91 | every run starts by creating the directory and writes only after the export is awaited; it fails on mkdir exactly when the error is not AlreadyExists, and then nothing else happens and nothing changes |
| SaveCommand.ExportRun | src/commands/save.ts:70-110 | after mkdir: spawn, read, then either exit 1 (schema error) or rethrow the read's own failure, both stopping after the read with the disk unchanged, or await and write; a failed write is thrown after the await; the record is saved exactly when the lookup found a record or none and the write succeeds, and then only the metadata file changes, to the new record |
| SaveCommand.StepsUntilRead | src/commands/save.ts:64-75 | the three steps before the previous record is known are: create the save directory, spawn the export into it, read its metadata file; none of them writes or awaits |
| SaveCommand.SaveOverFileRethrows | src/commands/save.ts:63-76 | when the save path is a regular file, mkdir's AlreadyExists is tolerated, the read of the metadata file fails with NotADirectory, `getMetadata` rethrows it, and the save ends after the read with the disk unchanged, never awaiting or writing |
| SaveCommand.StepsUntilWrite | src/commands/save.ts:64-90 | the steps of a save that writes: the first three, then await, then write the metadata file |
| SaveCommand.AwaitThenWrite | src/commands/save.ts:76-90 | writing right after awaiting the export keeps every write after an await |
| SaveCommand.Save | src/commands/save.ts:59-91 | the disk and the returned outcome and steps are exactly those `SaveEffects` gives for the old disk, with the save path `join(resolvedSaveLocation, name)` and `isAutoSave` defaulting to false |
| SaveCommand.ExportAndRecord | src/commands/save.ts:70-90 | the disk, outcome and steps after mkdir are exactly those `ExportRun` gives for the old disk |
| SaveCommand.SaveThenReadBack | src/commands/save.ts:75-90 | after a save with a non-empty name, the next save into the same directory reads the saved record as the previous one |
| SaveCommand.SavedRecordReadsBack | src/commands/save.ts:86-97 | the metadata file written reads back as the previous record when its name is not empty |
| SaveCommand.EmptyNameSaveUnreadable | src/commands/save.ts:11-29 | the empty name is accepted, saves into the save location itself, and the record written there reads back as exit code 1 |
| SaveCommand.LegalSaveNameReadsBack | src/commands/save.ts:62 | with a name accepted by the corrected validator, the save directory is one level below the save location and the saved record reads back |
| ListCommand.IsFulfilled | src/commands/list.ts:23-27 | holds exactly for fulfilled results |
| ListCommand.SaveDirs | src/commands/list.ts:50 | keeps exactly the directory entries |
| ListCommand.SaveDirsAppend | src/commands/list.ts:50 | filtering a concatenation filters each part, in order |
| ListCommand.Settle | src/commands/list.ts:54-59 | a read settles as fulfilled exactly when it succeeds, with its record, and is otherwise rejected with its failure |
| ListCommand.ReadAll | src/commands/list.ts:51-59 | one settled result per directory |
| ListCommand.ReadAllAt | src/commands/list.ts:51-59 | the i-th result is the settled read of the i-th directory's metadata file |
| ListCommand.ReadAllAppend | src/commands/list.ts:51-59 | reading a concatenation of directories reads each part, in order |
| ListCommand.FulfilledValues | src/commands/list.ts:60-62 | keeps no more values than there are results |
| ListCommand.FulfilledValuesMembers | src/commands/list.ts:60-62 | the values kept are exactly those of the fulfilled results |
| ListCommand.FulfilledValuesAppend | src/commands/list.ts:60-62 | keeping the values of a concatenation keeps those of each part, in order |
| ListCommand.Reader | src/commands/list.ts:51-57 | for a directory named by a plain name, the read is of "firesave-metadata.json" in that directory under the save location resolved against the working directory |
| ListCommand.CollectSaves | src/commands/list.ts:50-62 | collects at most one record per entry |
| ListCommand.CollectSavesAppend | src/commands/list.ts:50-62 | the records collected from a concatenation of entries are those of each part, in entry order |
| ListCommand.CollectSavesOne | src/commands/list.ts:50-62 | one entry contributes its record when it is a directory whose metadata file reads and validates, and nothing otherwise |
| ListCommand.SkippedEntry | src/commands/list.ts:50-62 | an entry that is not a directory, or whose read fails, is dropped without removing any other entry's record |
| ListCommand.CollectedRecords | src/commands/list.ts:50-62 | a record is collected exactly when some directory entry's metadata file reads and validates as it |
| ListCommand.SidecarPath | src/commands/list.ts:51-53 | the metadata file read for a directory named by a plain name is "firesave-metadata.json" in that directory, under the unresolved save location resolved against the working directory |
| ListCommand.SidecarWhereSaved | src/commands/list.ts:51-53 | when the save location resolves against the working directory, `list` reads the metadata file of a directory where `save` writes it |
| ListCommand.DefaultConfigSidecarAgrees | src/commands/list.ts:51-53 | with the configuration loaded from the default path, `list` reads the metadata file exactly where `save` writes it |
| ListCommand.ListReadsSavedRecord | src/commands/list.ts:51-62 | when the save location resolves against the working directory, `list` reads back the record `save` wrote in a directory, if its name is not empty |
| ListCommand.List | src/commands/list.ts:35-74 | an unreadable save location, or no collected record, prints only "no save data" for the resolved location and exits 0; otherwise prints the layout of the collected records and does not exit |
| ListFormat.NatToStringValue | src/commands/list.ts:81-85 | `String(n)` is all digits, has no leading zero and reads back as n |
| ListFormat.IntToString | src/commands/list.ts:80 | a negative year is written as a minus sign before its digits |
| ListFormat.PadStart | src/commands/list.ts:81-85 | the result is at least `width` long, ends with the input, and is filled before it |
| ListFormat.TwoDigitsValue | src/commands/list.ts:81-85 | a number below 100 is written as two digits that read back as it, with a leading '0' below 10 |
| ListFormat.FormatISODate | src/commands/list.ts:77-88 | the date text starts with the year and a '-', and is at least 15 characters longer than the year |
| ListFormat.DateTextLayout | src/commands/list.ts:87 | the template places the year and then the five fields, separated by "-", "-", " ", ":" and ":" |
| ListFormat.FormatISODateShape | src/commands/list.ts:77-88 | the date text is the year followed by 15 characters, with the separators at their fixed places |
| ListFormat.FormatISODateMonth | src/commands/list.ts:81 | the month field is two decimal digits that read back as the 0-based month plus one |
| ListFormat.FormatISODateDay | src/commands/list.ts:82 | the day field is two decimal digits that read back as the day of the month |
| ListFormat.FormatISODateTime | src/commands/list.ts:83-85 | the hour, minute and second fields are two decimal digits each that read back as the hours, minutes and seconds |
| ListFormat.SaveBlock | src/commands/list.ts:102-113 | a block is a divider, the header with the record's name, labelled Auto exactly for autosaves, the description line exactly when the description is present and non-empty, then the date line |
| ListFormat.BlocksAppend | src/commands/list.ts:101-114 | the blocks of a concatenation of records are the blocks of each part, in order |
| ListFormat.BlockDividers | src/commands/list.ts:102 | each block holds exactly one divider |
| ListFormat.BlocksDividers | src/commands/list.ts:101-114 | the blocks of n records hold n dividers |
| ListFormat.BlocksStart | src/commands/list.ts:101-102 | the blocks of one or more records start with a divider |
| ListFormat.Layout | src/commands/list.ts:90-116 | no records give the single "no save data" line; one or more records give at least two lines, the first and the last a divider |
| ListFormat.LayoutDividers | src/commands/list.ts:100-115 | for n ≥ 1 records the output holds n + 1 dividers, and the first line is one of them |
| ListFormat.FormatSaves | src/commands/list.ts:90-116 | the lines printed are the layout of the records: "no save data" for none, else each record's block in order and a closing divider |
| ListFormat.PrintSave | src/commands/list.ts:101-114 | one loop iteration appends exactly the record's block to the lines printed so far |

## Left out

- The export process (`Deno.Command`, `spawn`, `output`) is opaque. It appears only as the steps in which it is spawned and awaited. The files it writes are not modelled, and nothing depends on its exit status, because the code never reads it.
- Spawn failures are not modelled. The command string "firebase emulators:export" is passed as a single program name and is kept verbatim as a constant. Deno looks up an executable whose name is that whole string, space and colon included, and the Firebase CLI installs a program named `firebase`; so on an ordinary installation `spawn()` (src/commands/save.ts:74) throws `NotFound` right after `mkdirSync`, and `save` ends there with the new directory created and no metadata read or written. The model lets the spawn succeed and describes the run the code was written for.
- Concurrency is not modelled. The spawn overlaps `getMetadata`, and `Promise.allSettled` runs the metadata reads in parallel. Both are modelled sequentially, in order, which is the order `allSettled` reports in.
- JSON text is not modelled character by character. A file's text either parses to a value or is rejected.
- `Date` is not modelled. `Date.now()` becomes the parameter `now`, and reading a save time as a local date becomes the parameter `localDate`.
- Time zones and invalid dates are not modelled.
- Colours (chalk), emoji and the divider's glyphs are not modelled. A printed line is kept as what it shows.
- The command-line wiring (cmd-ts `command`/`option`/`positional`) is not modelled. For a `--config` path, `ConfigType.from` runs `loadConfig(relPath)` inside a promise executor (src/args/config-option.ts:35): the file is read, and an invalid one exits with code 1, but the returned configuration is discarded and the promise never resolves, so no handler receives it. `ConfigOption.LoadConfig` models that call for any path; the lemmas about `save` and `list` use the default path ".". `src/main.ts` and the launch command only register handlers.
- `resolvedSaveLocation` is resolved against the config location itself, as the code does (src/args/config-option.ts:62-65), not against its directory. For the default path "." these are the same directory; for a `--config` file the result would lie below that file, but it never reaches a handler.
- The save handler calls `save` without awaiting it. The model treats the save as running to completion.
- superstruct's error messages are not modelled. An error is kept as the field that failed, and arrays count as non-objects.
- The printed text of `console.log` for rejections and errors is not modelled. Only the `Deno.exit` code is.
- `Deno.readDirSync` is not modelled. Its listing is an input to `ListCommand.List`: the entries in order, or `None` when the call throws.
- ListCommand.List: takes the metadata read as a parameter `read`. On a file system it is `ListCommand.Reader`, and the lemmas about `Reader` and the sidecar path hold for that case.
- SaveNames.FindInvalidCharacters: a name is a sequence of Unicode scalar values. The regular expression has no `u` flag, so JavaScript matches a character outside the Basic Multilingual Plane as two UTF-16 code units, and the source reports two matches where the model reports one.
- SaveNames.FindInvalidCharactersLength: counts characters outside the class once each, where the source counts the UTF-16 code units of a character outside the Basic Multilingual Plane separately.
- SaveNames.RejectionListsEveryMatch: lists such a character once, quoted whole, where the source quotes each of its two UTF-16 code units.
- Bytes and UTF-8 decoding of the configuration file are not modelled.
- The second copy of `SaveMetadataStruct` in src/commands/list.ts:16-21 is identical to src/structs.ts:10-15, so both are modelled by `Structs.ValidateMetadata`.
- `formatSaves` has a "no save data" branch for an empty list (src/commands/list.ts:94-99). It is modelled, but `list` never reaches it.
- The copy and delete commands are not part of this model.

## Findings

| source | as written | input that shows it | evidently intended | confidence | as-written member | corrected member |
|---|---|---|---|---|---|---|
| src/commands/save.ts:11-29, src/structs.ts:11 | `legalFileName` accepts the empty name. `save` then writes into the save location itself, and the record written has an empty `name`, which `SaveMetadataStruct` rejects. The next save there exits with code 1, and `list` never shows it. | the save name "" | the empty name is rejected like any other illegal name, and every accepted name is a single directory below the save location | not executed | SaveCommand.EmptyNameSaveUnreadable | SaveNames.LegalSaveName, SaveCommand.LegalSaveNameReadsBack |
