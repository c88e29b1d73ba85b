/** The settings store of chronicle/settings.py: defaults, loading with a merge over the
    defaults, and the read-modify-write setters, over an abstract settings file. */
module Settings {
  import opened Wrappers

  /** A JSON value as far as the settings code looks at it. `Other` stands for arrays, objects
      and floats, with their Python truthiness. */
  datatype Value = Null | Bool(b: bool) | Int(i: int) | Str(s: string) | Other(truthy: bool)

  /** Python truthiness. */
  predicate Truthy(v: Value) {
    match v
    case Null => false
    case Bool(b) => b
    case Int(i) => i != 0
    case Str(s) => s != ""
    case Other(t) => t
  }

  type SettingsMap = map<string, Value>

  /** `DEFAULT_SETTINGS` */
  function DefaultSettings(): SettingsMap {
    map[
      "default_source" := Str(""),
      "default_destination" := Str(""),
      "default_move_files" := Bool(false),
      "organization_scheme" := Str("camera_year_month"),
      "month_format" := Str("full"),
      "separate_file_types" := Bool(true)]
  }

  const ValidSchemes: seq<string> := ["camera_year_month", "year_month", "year_month_camera"]
  const ValidMonthFormats: seq<string> := ["full", "number"]

  /** The settings file: missing, present but unreadable or not valid JSON, or a JSON object.
      A file whose bytes do not decode as text, or that holds an integer too long for `int`,
      makes `load_settings` raise; it has no case of its own here and reads as `Unparseable`. */
  datatype SettingsFile = Missing | Unparseable | Parsed(entries: SettingsMap)

  /** `load_settings()`: the defaults, overridden by what the file holds. */
  function LoadedSettings(file: SettingsFile): SettingsMap {
    match file
    case Parsed(entries) => DefaultSettings() + entries
    case _ => DefaultSettings()
  }

  /** A file that is missing or cannot be read gives exactly the defaults; a parsed one keeps
      every default key, lets the file override it, keeps the defaults the file lacks, and
      keeps unknown keys from the file too. */
  lemma LoadedSettingsSpec(file: SettingsFile)
    ensures !file.Parsed? ==> LoadedSettings(file) == DefaultSettings()
    ensures DefaultSettings().Keys <= LoadedSettings(file).Keys
    ensures file.Parsed? ==>
      && LoadedSettings(file).Keys == DefaultSettings().Keys + file.entries.Keys
      && (forall key :: key in file.entries ==> LoadedSettings(file)[key] == file.entries[key])
      && (forall key :: key in DefaultSettings() && key !in file.entries ==>
            LoadedSettings(file)[key] == DefaultSettings()[key])
  {
  }

  /** The settings file, which the functions of chronicle/settings.py read and write. */
  class SettingsStore {
    var file: SettingsFile

    constructor (file: SettingsFile)
      ensures this.file == file
    {
      this.file := file;
    }

    /** `load_settings()`: copy the defaults, then `update` with the file's object. */
    method LoadSettings() returns (settings: SettingsMap)
      ensures settings == LoadedSettings(file)
    {
      settings := DefaultSettings();
      if file.Parsed? {
        settings := settings + file.entries;
      }
    }

    /** `save_settings(settings)`; `writeOk` is whether creating the folder and writing the
        file succeed. */
    method SaveSettings(settings: SettingsMap, writeOk: bool) returns (ok: bool)
      modifies this
      ensures ok == writeOk
      ensures file == if writeOk then Parsed(settings) else old(file)
    {
      if writeOk {
        file := Parsed(settings);
      }
      ok := writeOk;
    }

    /** `get_setting(key, default)` */
    method GetSetting(key: string, default: Value) returns (v: Value)
      ensures v == if key in LoadedSettings(file) then LoadedSettings(file)[key] else default
    {
      var settings := LoadSettings();
      v := if key in settings then settings[key] else default;
    }

    /** `set_setting(key, value)` */
    method SetSetting(key: string, value: Value, writeOk: bool) returns (ok: bool)
      modifies this
      ensures ok == writeOk
      ensures file == if writeOk then Parsed(old(LoadedSettings(file))[key := value]) else old(file)
    {
      var settings := LoadSettings();
      settings := settings[key := value];
      ok := SaveSettings(settings, writeOk);
    }

    /** `get_default_source()`: `None` for a falsy stored value. */
    method GetDefaultSource() returns (r: Option<Value>)
      ensures r == StoredPath(LoadedSettings(file), "default_source")
    {
      var source := GetSetting("default_source", Str(""));
      r := if Truthy(source) then Some(source) else None;
    }

    /** `get_default_destination()` */
    method GetDefaultDestination() returns (r: Option<Value>)
      ensures r == StoredPath(LoadedSettings(file), "default_destination")
    {
      var dest := GetSetting("default_destination", Str(""));
      r := if Truthy(dest) then Some(dest) else None;
    }

    /** `get_default_move_files()` */
    method GetDefaultMoveFiles() returns (v: Value)
      ensures v == LoadedSettings(file)["default_move_files"]
    {
      LoadedSettingsSpec(file);
      v := GetSetting("default_move_files", Bool(false));
    }

    /** `get_organization_scheme()` */
    method GetOrganizationScheme() returns (v: Value)
      ensures v == LoadedSettings(file)["organization_scheme"]
    {
      LoadedSettingsSpec(file);
      v := GetSetting("organization_scheme", Str("camera_year_month"));
    }

    /** `get_month_format()` */
    method GetMonthFormat() returns (v: Value)
      ensures v == LoadedSettings(file)["month_format"]
    {
      LoadedSettingsSpec(file);
      v := GetSetting("month_format", Str("full"));
    }

    /** `get_separate_file_types()` */
    method GetSeparateFileTypes() returns (v: Value)
      ensures v == LoadedSettings(file)["separate_file_types"]
    {
      LoadedSettingsSpec(file);
      v := GetSetting("separate_file_types", Bool(true));
    }

    /** `set_default_source(path)` */
    method SetDefaultSource(path: string, writeOk: bool) returns (ok: bool)
      modifies this
      ensures ok == writeOk
      ensures file == if writeOk then Parsed(old(LoadedSettings(file))["default_source" := Str(path)])
                      else old(file)
    {
      ok := SetSetting("default_source", Str(path), writeOk);
    }

    /** `set_default_destination(path)` */
    method SetDefaultDestination(path: string, writeOk: bool) returns (ok: bool)
      modifies this
      ensures ok == writeOk
      ensures file == if writeOk
                      then Parsed(old(LoadedSettings(file))["default_destination" := Str(path)])
                      else old(file)
    {
      ok := SetSetting("default_destination", Str(path), writeOk);
    }

    /** `set_default_move_files(move)` */
    method SetDefaultMoveFiles(move: bool, writeOk: bool) returns (ok: bool)
      modifies this
      ensures ok == writeOk
      ensures file == if writeOk
                      then Parsed(old(LoadedSettings(file))["default_move_files" := Bool(move)])
                      else old(file)
    {
      ok := SetSetting("default_move_files", Bool(move), writeOk);
    }

    /** `set_separate_file_types(separate)` */
    method SetSeparateFileTypes(separate: bool, writeOk: bool) returns (ok: bool)
      modifies this
      ensures ok == writeOk
      ensures file == if writeOk
                      then Parsed(old(LoadedSettings(file))["separate_file_types" := Bool(separate)])
                      else old(file)
    {
      ok := SetSetting("separate_file_types", Bool(separate), writeOk);
    }

    /** `set_organization_scheme(scheme)`: a scheme outside the three known ones is refused
        (the `ValueError`) and nothing is saved. */
    method SetOrganizationScheme(scheme: string, writeOk: bool) returns (r: Result<bool, string>)
      modifies this
      ensures scheme !in ValidSchemes <==> r.Failure?
      ensures r.Failure? ==> file == old(file)
      ensures r.Success? ==> r.value == writeOk
      ensures r.Success? ==>
        file == if writeOk then Parsed(old(LoadedSettings(file))["organization_scheme" := Str(scheme)]) else old(file)
    {
      if scheme !in ValidSchemes {
        return Failure("Invalid organization scheme");
      }
      var ok := SetSetting("organization_scheme", Str(scheme), writeOk);
      r := Success(ok);
    }

    /** `set_month_format(format_type)`: anything but "full" and "number" is refused and
        nothing is saved. */
    method SetMonthFormat(format: string, writeOk: bool) returns (r: Result<bool, string>)
      modifies this
      ensures format !in ValidMonthFormats <==> r.Failure?
      ensures r.Failure? ==> file == old(file)
      ensures r.Success? ==> r.value == writeOk
      ensures r.Success? ==>
        file == if writeOk then Parsed(old(LoadedSettings(file))["month_format" := Str(format)]) else old(file)
    {
      if format !in ValidMonthFormats {
        return Failure("Invalid month format");
      }
      var ok := SetSetting("month_format", Str(format), writeOk);
      r := Success(ok);
    }

    /** `reset_settings()` */
    method ResetSettings(writeOk: bool) returns (ok: bool)
      modifies this
      ensures ok == writeOk
      ensures file == if writeOk then Parsed(DefaultSettings()) else old(file)
    {
      ok := SaveSettings(DefaultSettings(), writeOk);
    }
  }

  /** What `get_default_source` and `get_default_destination` return for a key. */
  function StoredPath(settings: SettingsMap, key: string): (r: Option<Value>)
    ensures r.None? <==> key !in settings || !Truthy(settings[key])
  {
    if key in settings && Truthy(settings[key]) then Some(settings[key]) else None
  }

  /** The getters answer "no path" for the default empty string, and the stored string for a
      non-empty one. */
  lemma StoredPathSpec(file: SettingsFile, key: string, path: string)
    requires key == "default_source" || key == "default_destination"
    ensures LoadedSettings(file)[key] == Str("") ==> StoredPath(LoadedSettings(file), key).None?
    ensures LoadedSettings(file)[key] == Str(path) && path != "" ==>
      StoredPath(LoadedSettings(file), key) == Some(Str(path))
  {
    LoadedSettingsSpec(file);
  }

  /** Loading after a save gives back what was saved over the defaults, and after a setter the
      loaded settings differ from the earlier ones at the one key only. */
  lemma SaveThenLoad(before: SettingsFile, key: string, value: Value)
    ensures var saved := Parsed(LoadedSettings(before)[key := value]);
      && LoadedSettings(saved) == LoadedSettings(before)[key := value]
      && LoadedSettings(saved)[key] == value
      && (forall k :: k in LoadedSettings(before) && k != key ==>
            LoadedSettings(saved)[k] == LoadedSettings(before)[k])
  {
    LoadedSettingsSpec(before);
    var m := LoadedSettings(before)[key := value];
    assert DefaultSettings().Keys <= m.Keys;
    assert DefaultSettings() + m == m;
  }

  /** After a reset, loading gives exactly the defaults. */
  lemma ResetThenLoad()
    ensures LoadedSettings(Parsed(DefaultSettings())) == DefaultSettings()
  {
  }
}
