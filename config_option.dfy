/**
 * The `--config` option: loading the configuration file, filling in defaults,
 * and extending the result with two resolved paths.
 */
module ConfigOption {
  import opened Wrappers
  import opened Paths
  import opened JsonText
  import opened FileSystem
  import opened Schema

  /** `Config`, the type `ConfigStruct` infers. */
  datatype Config = Config(
    autoSaveFrequency: Option<real>,
    saveLocation: string,
    autoSaveName: string,
    exportOnExit: bool,
    defaultLoadedSave: string,
    firebaseCmd: string)

  /** The defaults of `ConfigStruct`. */
  const DEFAULTS := Config(None, "firesave", "autosave", false, "autosave", "firebase")

  /** The path loaded when no `--config` is given. */
  const DEFAULT_CONFIG_PATH := "."

  /** `ExtendedConfig`: the configuration and the two absolute paths derived from it. */
  datatype ExtendedConfig = ExtendedConfig(base: Config, resolvedConfigLocation: Path, resolvedSaveLocation: Path)

  /** What loading a configuration ends in: a configuration, or `Deno.exit(code)`. */
  datatype LoadOutcome = Loaded(config: ExtendedConfig) | Exited(code: int)

  /** `ConfigStruct` as a predicate: an object in which each field that is present has its type. */
  predicate AcceptsConfig(v: Json) {
    && v.JObj?
    && ("autoSaveFrequency" !in v.fields || v.fields["autoSaveFrequency"].JNum?)
    && ("saveLocation" !in v.fields || v.fields["saveLocation"].JStr?)
    && ("autoSaveName" !in v.fields || v.fields["autoSaveName"].JStr?)
    && ("exportOnExit" !in v.fields || v.fields["exportOnExit"].JBool?)
    && ("defaultLoadedSave" !in v.fields || v.fields["defaultLoadedSave"].JStr?)
    && ("firebaseCmd" !in v.fields || v.fields["firebaseCmd"].JStr?)
  }

  /** A string field is taken from the object when present and from the defaults when absent. */
  predicate StringFieldFrom(f: Fields, key: string, value: string, fallback: string) {
    if key in f then f[key] == JStr(value) else value == fallback
  }

  /** The configuration an accepted object stands for. */
  predicate ConfigFrom(f: Fields, c: Config) {
    && (if "autoSaveFrequency" in f then c.autoSaveFrequency.Some? && f["autoSaveFrequency"] == JNum(c.autoSaveFrequency.value) else c.autoSaveFrequency.None?)
    && StringFieldFrom(f, "saveLocation", c.saveLocation, DEFAULTS.saveLocation)
    && StringFieldFrom(f, "autoSaveName", c.autoSaveName, DEFAULTS.autoSaveName)
    && (if "exportOnExit" in f then f["exportOnExit"] == JBool(c.exportOnExit) else c.exportOnExit == DEFAULTS.exportOnExit)
    && StringFieldFrom(f, "defaultLoadedSave", c.defaultLoadedSave, DEFAULTS.defaultLoadedSave)
    && StringFieldFrom(f, "firebaseCmd", c.firebaseCmd, DEFAULTS.firebaseCmd)
  }

  /** `validate(raw, ConfigStruct, { mask: true, coerce: true })`. */
  function ValidateConfig(v: Json): (r: Result<Config, StructError>)
    ensures r.Success? <==> AcceptsConfig(v)
    ensures r.Success? ==> ConfigFrom(v.fields, r.value)
  {
    if !v.JObj? then Failure(ExpectedObject)
    else
      var f := v.fields;
      var autoSaveFrequency := OptionalNumber(f, "autoSaveFrequency");
      var saveLocation := DefaultedString(f, "saveLocation", "firesave");
      var autoSaveName := DefaultedString(f, "autoSaveName", "autosave");
      var exportOnExit := DefaultedBool(f, "exportOnExit", false);
      var defaultLoadedSave := DefaultedString(f, "defaultLoadedSave", "autosave");
      var firebaseCmd := DefaultedString(f, "firebaseCmd", "firebase");
      if autoSaveFrequency.Failure? then Failure(autoSaveFrequency.error)
      else if saveLocation.Failure? then Failure(saveLocation.error)
      else if autoSaveName.Failure? then Failure(autoSaveName.error)
      else if exportOnExit.Failure? then Failure(exportOnExit.error)
      else if defaultLoadedSave.Failure? then Failure(defaultLoadedSave.error)
      else if firebaseCmd.Failure? then Failure(firebaseCmd.error)
      else Success(Config(autoSaveFrequency.value, saveLocation.value, autoSaveName.value,
                          exportOnExit.value, defaultLoadedSave.value, firebaseCmd.value))
  }

  /** `mask({}, ConfigStruct)` is the all-defaults configuration. */
  lemma MaskEmptyIsDefaults()
    ensures ValidateConfig(JObj(map[])) == Success(DEFAULTS)
  {
    var r := ValidateConfig(JObj(map[]));
    assert ConfigFrom(map[], r.value);
  }

  /** Reading and parsing the configuration file; `None` is every case the `catch` turns into defaults. */
  function ReadConfigJson(nodes: Nodes, location: Path): (r: Option<Json>)
    ensures r.Some? <==> location in nodes && nodes[location].File? && nodes[location].text.Parsable?
    ensures r.Some? ==> r.value == nodes[location].text.value
  {
    match ReadTextFile(nodes, location)
    case Failure(_) => None
    case Success(raw) =>
      match Parse(raw)
      case Failure(_) => None
      case Success(v) => Some(v)
  }

  /** Adds `resolvedConfigLocation` and `resolvedSaveLocation` to a configuration. */
  function Extend(c: Config, resolvedConfigLocation: Path): (e: ExtendedConfig)
    ensures e.base == c && e.resolvedConfigLocation == resolvedConfigLocation
    ensures e.resolvedSaveLocation == Resolve(resolvedConfigLocation, c.saveLocation)
  {
    ExtendedConfig(c, resolvedConfigLocation, Resolve(resolvedConfigLocation, c.saveLocation))
  }

  /**
   * `loadConfig(relPath)` with the working directory `cwd`. A file that cannot
   * be read or parsed gives the defaults; a file that parses but does not
   * validate exits with code 1; otherwise the validated configuration. Either
   * configuration is extended with the config location and the save location
   * resolved against it.
   */
  function LoadConfig(nodes: Nodes, cwd: Path, relPath: string): (r: LoadOutcome)
    ensures r.Exited? <==> ReadConfigJson(nodes, Resolve(cwd, relPath)).Some? && !AcceptsConfig(ReadConfigJson(nodes, Resolve(cwd, relPath)).value)
    ensures r.Exited? ==> r.code == 1
    ensures r.Loaded? ==> r.config.resolvedConfigLocation == Resolve(cwd, relPath)
    ensures r.Loaded? ==> r.config.resolvedSaveLocation == Resolve(r.config.resolvedConfigLocation, r.config.base.saveLocation)
    ensures ReadConfigJson(nodes, Resolve(cwd, relPath)).None? ==> r.Loaded? && r.config.base == DEFAULTS
    ensures r.Loaded? && ReadConfigJson(nodes, Resolve(cwd, relPath)).Some? ==>
              ConfigFrom(ReadConfigJson(nodes, Resolve(cwd, relPath)).value.fields, r.config.base)
  {
    var resolvedConfigLocation := Resolve(cwd, relPath);
    match ReadConfigJson(nodes, resolvedConfigLocation)
    case None =>
      MaskEmptyIsDefaults();
      Loaded(Extend(ValidateConfig(JObj(map[])).value, resolvedConfigLocation))
    case Some(raw) =>
      match ValidateConfig(raw)
      case Failure(_) => Exited(1)
      case Success(c) => Loaded(Extend(c, resolvedConfigLocation))
  }

  /** Every field present in an accepted file overrides its default, and every absent field keeps it. */
  lemma LoadedFieldsOverrideDefaults(nodes: Nodes, cwd: Path, relPath: string, f: Fields)
    requires ReadConfigJson(nodes, Resolve(cwd, relPath)) == Some(JObj(f))
    requires AcceptsConfig(JObj(f))
    ensures LoadConfig(nodes, cwd, relPath).Loaded?
    ensures var c := LoadConfig(nodes, cwd, relPath).config.base;
      && c.saveLocation == (if "saveLocation" in f then f["saveLocation"].s else "firesave")
      && c.autoSaveName == (if "autoSaveName" in f then f["autoSaveName"].s else "autosave")
      && c.exportOnExit == ("exportOnExit" in f && f["exportOnExit"].b)
      && c.defaultLoadedSave == (if "defaultLoadedSave" in f then f["defaultLoadedSave"].s else "autosave")
      && c.firebaseCmd == (if "firebaseCmd" in f then f["firebaseCmd"].s else "firebase")
      && c.autoSaveFrequency == (if "autoSaveFrequency" in f then Some(f["autoSaveFrequency"].n) else None)
  {
  }

  /**
   * Without `--config` the path loaded is the working directory itself. A
   * directory cannot be read as a file, so on a well-formed file system the
   * result is the defaults, with saves kept in `<cwd>/firesave`.
   */
  lemma DefaultPathGivesDefaults(nodes: Nodes, cwd: Path)
    requires IsTree(nodes) && cwd in nodes && nodes[cwd] == Directory
    ensures LoadConfig(nodes, cwd, DEFAULT_CONFIG_PATH) == Loaded(ExtendedConfig(DEFAULTS, cwd, cwd + ["firesave"]))
  {
  }
}
