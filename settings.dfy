/** The settings tree of `ConfigManager` (src/config_manager.py): JSON
    values, the recursive merge of the settings file over the defaults,
    dotted-path lookup and update, and the fallbacks to the defaults. */
module Settings {
  import opened Wrappers
  import opened Text

  /** A JSON value as `json.load` returns it; an object is a map (key order
      is not modelled). */
  datatype Json =
    | JNull
    | JBool(b: bool)
    | JInt(i: int)
    | JReal(r: real)
    | JStr(s: string)
    | JArr(items: seq<Json>)
    | JObj(fields: map<string, Json>)

  /** A configuration file on disk: absent, present but unreadable or not
      JSON, or holding a JSON value. */
  datatype StoredFile = Missing | Unreadable | Stored(content: Json)

  /** The settings object a file holds, when it holds an object. */
  function FileObject(file: StoredFile): Option<map<string, Json>> {
    if file.Stored? && file.content.JObj? then Some(file.content.fields) else None
  }

  // ---------------------------------------------------------------------
  // `_deep_merge`

  predicate BothObjects(base: map<string, Json>, update: map<string, Json>, k: string) {
    k in base && k in update && base[k].JObj? && update[k].JObj?
  }

  /** `_deep_merge(base, update)`: the keys of both; a shared key whose two
      values are objects is merged recursively, otherwise the update's value
      wins; a key only in `base` keeps its value. */
  function Merge(base: map<string, Json>, update: map<string, Json>): (r: map<string, Json>)
    ensures r.Keys == base.Keys + update.Keys
    ensures forall k :: k in base && k !in update ==> r[k] == base[k]
    ensures forall k :: k in update && !BothObjects(base, update, k) ==> r[k] == update[k]
    ensures forall k :: BothObjects(base, update, k) ==>
      r[k] == JObj(Merge(base[k].fields, update[k].fields))
    decreases JObj(update)
  {
    map k | k in base.Keys + update.Keys ::
      if k !in update then base[k]
      else if BothObjects(base, update, k) then JObj(Merge(base[k].fields, update[k].fields))
      else update[k]
  }

  /** Merging an empty update copies the base; merging over an empty base
      copies the update. */
  lemma MergeEmpty(m: map<string, Json>)
    ensures Merge(m, map[]) == m
    ensures Merge(map[], m) == m
  {
  }

  /** Merging a tree over itself gives it back. */
  lemma {:induction false} MergeSelf(m: map<string, Json>)
    ensures Merge(m, m) == m
    decreases JObj(m)
  {
    var r := Merge(m, m);
    forall k | k in m
      ensures r[k] == m[k]
    {
      if m[k].JObj? {
        MergeSelf(m[k].fields);
      }
    }
    assert r.Keys == m.Keys;
  }

  /** Applying the same update twice is the same as applying it once. */
  lemma {:induction false} MergeUpdateIdempotent(base: map<string, Json>, update: map<string, Json>)
    ensures Merge(Merge(base, update), update) == Merge(base, update)
    decreases JObj(update)
  {
    var once := Merge(base, update);
    var twice := Merge(once, update);
    forall k | k in once
      ensures twice[k] == once[k]
    {
      if k in update {
        if BothObjects(base, update, k) {
          MergeUpdateIdempotent(base[k].fields, update[k].fields);
          assert BothObjects(once, update, k);
        } else {
          assert once[k] == update[k];
          if update[k].JObj? {
            MergeSelf(update[k].fields);
            assert BothObjects(once, update, k);
          }
        }
      }
    }
    assert twice.Keys == once.Keys;
  }

  // ---------------------------------------------------------------------
  // Dotted paths

  /** `value = value[key]` for each key: None where the walk meets a
      missing key or a value that is not an object (the KeyError and
      TypeError `get_setting` catches). */
  function GetPath(j: Json, keys: seq<string>): (r: Option<Json>)
    ensures keys == [] ==> r == Some(j)
    ensures keys != [] && r.Some? ==> j.JObj? && keys[0] in j.fields
  {
    if keys == [] then Some(j)
    else if j.JObj? && keys[0] in j.fields then GetPath(j.fields[keys[0]], keys[1..])
    else None
  }

  /** The cursor walk of `set_setting` meets an existing value that is not
      an object before the last key. */
  predicate Blocked(m: map<string, Json>, keys: seq<string>) {
    exists j :: 1 <= j < |keys| && GetPath(JObj(m), keys[..j]).Some? && !GetPath(JObj(m), keys[..j]).value.JObj?
  }

  /** `set_setting`'s update of the loaded tree: walk all keys but the last,
      creating an empty object for each missing one, then set the last.
      None when the walk is blocked (the TypeError it catches). */
  function SetPath(m: map<string, Json>, keys: seq<string>, v: Json): (r: Option<map<string, Json>>)
    requires keys != []
    ensures r.Some? ==> r.value.Keys == m.Keys + {keys[0]}
    decreases |keys|
  {
    var k := keys[0];
    if |keys| == 1 then Some(m[k := v])
    else if k !in m then
      var sub := SetPath(map[], keys[1..], v);
      if sub.Some? then Some(m[k := JObj(sub.value)]) else None
    else if m[k].JObj? then
      var sub := SetPath(m[k].fields, keys[1..], v);
      if sub.Some? then Some(m[k := JObj(sub.value)]) else None
    else None
  }

  lemma {:induction false} GetPathStep(m: map<string, Json>, keys: seq<string>, j: nat)
    requires 1 <= j <= |keys| && keys[0] in m
    ensures GetPath(JObj(m), keys[..j]) == GetPath(m[keys[0]], keys[1..][..j - 1])
  {
    assert keys[..j][0] == keys[0];
    assert keys[..j][1..] == keys[1..][..j - 1];
  }

  /** The update succeeds exactly when the walk is not blocked. */
  lemma {:induction false} SetPathSucceeds(m: map<string, Json>, keys: seq<string>, v: Json)
    requires keys != []
    ensures SetPath(m, keys, v).Some? <==> !Blocked(m, keys)
    decreases |keys|
  {
    var k := keys[0];
    if |keys| == 1 {
    } else if k !in m {
      SetPathSucceeds(map[], keys[1..], v);
      forall j | 1 <= j < |keys|
        ensures GetPath(JObj(m), keys[..j]).None? || GetPath(JObj(m), keys[..j]).value.JObj?
      {
        assert keys[..j][0] == k;
        if j > 1 {
          assert GetPath(JObj(m), keys[..j]).None?;
        } else {
          assert GetPath(JObj(m), keys[..j]).None?;
        }
      }
      EmptyNeverBlocked(keys[1..], v);
    } else if m[k].JObj? {
      SetPathSucceeds(m[k].fields, keys[1..], v);
      BlockedStep(m, keys);
    } else {
      GetPathStep(m, keys, 1);
      assert GetPath(JObj(m), keys[..1]) == Some(m[k]);
    }
  }

  lemma EmptyNeverBlocked(keys: seq<string>, v: Json)
    ensures !Blocked(map[], keys)
  {
    forall j | 1 <= j < |keys|
      ensures GetPath(JObj(map[]), keys[..j]).None?
    {
      assert keys[..j][0] == keys[0];
    }
  }

  /** Below an existing object, blocking is decided by its subtree. */
  lemma BlockedStep(m: map<string, Json>, keys: seq<string>)
    requires |keys| >= 2 && keys[0] in m && m[keys[0]].JObj?
    ensures Blocked(m, keys) <==> Blocked(m[keys[0]].fields, keys[1..])
  {
    var k := keys[0];
    var sub := m[k].fields;
    forall j | 1 <= j <= |keys|
      ensures GetPath(JObj(m), keys[..j]) == GetPath(JObj(sub), keys[1..][..j - 1])
    {
      GetPathStep(m, keys, j);
    }
    if Blocked(m, keys) {
      var j :| 1 <= j < |keys| && GetPath(JObj(m), keys[..j]).Some? && !GetPath(JObj(m), keys[..j]).value.JObj?;
      assert j - 1 >= 1;
      assert 1 <= j - 1 < |keys[1..]|;
    }
    if Blocked(sub, keys[1..]) {
      var i :| 1 <= i < |keys[1..]| && GetPath(JObj(sub), keys[1..][..i]).Some? && !GetPath(JObj(sub), keys[1..][..i]).value.JObj?;
      assert GetPath(JObj(m), keys[..i + 1]) == GetPath(JObj(sub), keys[1..][..i]);
    }
  }

  /** After a successful update the path reads back the new value. */
  lemma {:induction false} SetPathReadsBack(m: map<string, Json>, keys: seq<string>, v: Json)
    requires keys != [] && SetPath(m, keys, v).Some?
    ensures GetPath(JObj(SetPath(m, keys, v).value), keys) == Some(v)
    decreases |keys|
  {
    var k := keys[0];
    if |keys| > 1 {
      if k !in m {
        SetPathReadsBack(map[], keys[1..], v);
      } else {
        SetPathReadsBack(m[k].fields, keys[1..], v);
      }
    }
  }

  /** Two paths that part at some position. */
  predicate Diverge(p: seq<string>, q: seq<string>) {
    exists i :: 0 <= i < |p| && i < |q| && p[i] != q[i]
  }

  /** A successful update leaves every path that parts from it unchanged. */
  lemma {:induction false} SetPathFrame(m: map<string, Json>, keys: seq<string>, v: Json, q: seq<string>)
    requires keys != [] && SetPath(m, keys, v).Some?
    requires Diverge(keys, q)
    ensures GetPath(JObj(SetPath(m, keys, v).value), q) == GetPath(JObj(m), q)
    decreases |keys|
  {
    var k := keys[0];
    var r := SetPath(m, keys, v).value;
    if q[0] != k {
    } else {
      var i :| 0 <= i < |keys| && i < |q| && keys[i] != q[i];
      assert i >= 1;
      assert Diverge(keys[1..], q[1..]) by {
        assert keys[1..][i - 1] != q[1..][i - 1];
      }
      if k !in m {
        SetPathFrame(map[], keys[1..], v, q[1..]);
        assert GetPath(JObj(map[]), q[1..]) == None by {
          assert q[1..] != [];
        }
      } else {
        SetPathFrame(m[k].fields, keys[1..], v, q[1..]);
      }
    }
  }

  /** Reading a path of a merge whose update holds `v` there: `v` itself,
      unless `v` is an object and so is the base's value there, in which
      case the two are merged. */
  lemma {:induction false} MergeReadsUpdate(base: map<string, Json>, update: map<string, Json>, keys: seq<string>, v: Json)
    requires keys != [] && GetPath(JObj(update), keys) == Some(v)
    ensures var b := GetPath(JObj(base), keys);
      GetPath(JObj(Merge(base, update)), keys) ==
        if v.JObj? && b.Some? && b.value.JObj? then Some(JObj(Merge(b.value.fields, v.fields))) else Some(v)
    decreases |keys|
  {
    var k := keys[0];
    var r := Merge(base, update);
    if |keys| > 1 {
      assert update[k].JObj?;
      if BothObjects(base, update, k) {
        MergeReadsUpdate(base[k].fields, update[k].fields, keys[1..], v);
      } else {
        assert r[k] == update[k];
        if k in base && !base[k].JObj? && keys[1..] != [] {
          assert GetPath(base[k], keys[1..]) == None;
        }
      }
    }
  }

  // ---------------------------------------------------------------------
  // Defaults

  const DefaultSettings: map<string, Json> := map[
    "ai" := JObj(map[
      "model" := JStr("mistral:7b"), "temperature" := JReal(0.7),
      "max_tokens" := JInt(1000), "context_window" := JInt(4096)]),
    "ui" := JObj(map[
      "theme" := JStr("light"), "font_size" := JInt(11), "language" := JStr("es"),
      "auto_save" := JBool(true), "show_timestamps" := JBool(true)]),
    "updates" := JObj(map[
      "auto_check" := JBool(true), "allow_auto_update" := JBool(true),
      "check_interval_hours" := JInt(24)]),
    "document" := JObj(map[
      "max_file_size_mb" := JInt(50),
      "supported_formats" := JArr([JStr(".txt"), JStr(".pdf"), JStr(".docx"), JStr(".md"), JStr(".rtf")]),
      "auto_load_last" := JBool(true), "chunk_size" := JInt(1000)]),
    "paths" := JObj(map[
      "documents_dir" := JStr("documents"), "models_dir" := JStr("assets/models"),
      "logs_dir" := JStr("logs")])
  ]

  const DefaultSelectedModel := "mistral:7b"

  function ModelEntry(name: string, description: string, sizeGb: real, language: string, recommended: bool): Json {
    JObj(map["name" := JStr(name), "description" := JStr(description), "size_gb" := JReal(sizeGb),
             "language" := JStr(language), "recommended" := JBool(recommended)])
  }

  const DefaultModels: map<string, Json> := map[
    "available_models" := JArr([
      ModelEntry("mistral:7b", "Modelo equilibrado - Recomendado", 4.1, "multilingual", true),
      ModelEntry("llama2:7b", "Modelo versátil en inglés", 3.8, "english", false),
      ModelEntry("phi:2.7b", "Modelo pequeño y rápido", 1.7, "english", false)]),
    "selected_model" := JStr(DefaultSelectedModel)
  ]

  /** What `load_settings` returns for the given defaults and file: the
      merge of the file's object over the defaults, or the defaults when the
      file is missing, unreadable or not an object. */
  function Loaded(defaults: map<string, Json>, file: StoredFile): (s: map<string, Json>)
    ensures FileObject(file).None? ==> s == defaults
    ensures FileObject(file).Some? ==> s.Keys == defaults.Keys + FileObject(file).value.Keys
    ensures forall k :: k in defaults && (FileObject(file).None? || k !in FileObject(file).value) ==> s[k] == defaults[k]
  {
    match FileObject(file)
    case None => defaults
    case Some(f) => Merge(defaults, f)
  }

  /** `get_selected_model` over what `load_models` returns: the stored
      object's `selected_model`, "mistral:7b" when it has none or the file
      cannot be read; None when the file holds JSON that is not an object
      (the AttributeError then escapes). */
  function SelectedModel(modelsFile: StoredFile): (r: Option<Json>)
    ensures modelsFile.Missing? || modelsFile.Unreadable? ==> r == Some(JStr(DefaultSelectedModel))
    ensures r.None? <==> modelsFile.Stored? && !modelsFile.content.JObj?
    ensures FileObject(modelsFile).Some? && "selected_model" !in FileObject(modelsFile).value ==>
      r == Some(JStr(DefaultSelectedModel))
    ensures FileObject(modelsFile).Some? && "selected_model" in FileObject(modelsFile).value ==>
      r == Some(FileObject(modelsFile).value["selected_model"])
  {
    match modelsFile
    case Stored(JObj(m)) =>
      if "selected_model" in m then Some(m["selected_model"]) else Some(JStr(DefaultSelectedModel))
    case Stored(_) => None
    case _ => Some(DefaultModels["selected_model"])
  }

  // ---------------------------------------------------------------------
  // `set_setting` as written: writes through shared defaults

  /** Whether the cursor walk of `set_setting` over the loaded tree reaches
      the object it assigns into (or the first object it inserts into)
      through a dictionary that is the defaults' own: `_deep_merge` copies
      only the top level of `base`, so a section the file lacks is the
      defaults' dictionary itself, and after a failed load every section
      is (`default_settings.copy()` is shallow). */
  function SharesDefaults(defaults: map<string, Json>, file: Option<map<string, Json>>, keys: seq<string>): bool
    decreases |keys|
  {
    if |keys| < 2 then false
    else match file
      case None => keys[0] in defaults
      case Some(f) =>
        if keys[0] !in f then keys[0] in defaults
        else if BothObjects(defaults, f, keys[0]) then
          SharesDefaults(defaults[keys[0]].fields, Some(f[keys[0]].fields), keys[1..])
        else false
  }

  datatype SetEffect = SetEffect(ok: bool, defaults: map<string, Json>, file: StoredFile)

  /** `set_setting` as the code is written: besides the file, the update
      also lands in `default_settings` whenever the walk passes through a
      dictionary the defaults share. */
  function SetSettingAsWritten(defaults: map<string, Json>, file: StoredFile, writable: bool,
                               keyPath: string, v: Json): (r: SetEffect)
    ensures var keys := SplitOn(keyPath, '.');
      && (r.ok <==> writable && SetPath(Loaded(defaults, file), keys, v).Some?)
      && (!r.ok ==> r.file == file)
      && (!SharesDefaults(defaults, FileObject(file), keys) ==> r.defaults == defaults)
  {
    var keys := SplitOn(keyPath, '.');
    match SetPath(Loaded(defaults, file), keys, v)
    case None => SetEffect(false, defaults, file)
    case Some(s) =>
      // the shared dictionaries lie on the walked path, so the defaults see
      // the same update (their own walk is then never blocked)
      var d := if SharesDefaults(defaults, FileObject(file), keys) then SetPath(defaults, keys, v).GetOr(defaults) else defaults;
      SetEffect(writable, d, if writable then Stored(JObj(s)) else file)
  }

  /** When the settings file cannot be used and saving fails, a
      `set_setting` under an existing section reports failure, yet its value
      is what every later `get_setting` of that path returns: the write went
      into the defaults. */
  lemma SetSettingLeaksIntoDefaults(defaults: map<string, Json>, file: StoredFile, keyPath: string, v: Json)
    requires FileObject(file).None?
    requires var keys := SplitOn(keyPath, '.');
      |keys| >= 2 && keys[0] in defaults && SetPath(defaults, keys, v).Some?
    ensures var r := SetSettingAsWritten(defaults, file, false, keyPath, v);
      && !r.ok
      && GetPath(JObj(Loaded(r.defaults, r.file)), SplitOn(keyPath, '.')) == Some(v)
  {
    SetPathReadsBack(defaults, SplitOn(keyPath, '.'), v);
  }

  lemma SplitThemePath()
    ensures SplitOn("ui.theme", '.') == ["ui", "theme"]
  {
    ThemeDots();
    var s := "ui.theme";
    assert s[..2] == "ui" && s[3..] == "theme";
    assert SplitOn("theme", '.') == ["theme"];
  }

  lemma ThemeDots()
    ensures IndexOf("ui.theme", '.') == 2 && IndexOf("theme", '.') == 5
  {
    assert "ui.theme"[1..][1..] == ".theme";
  }

  /** The default `ui` section holds `theme: "light"`. */
  lemma DefaultTheme()
    ensures "ui" in DefaultSettings && DefaultSettings["ui"].JObj?
    ensures "theme" in DefaultSettings["ui"].fields
    ensures DefaultSettings["ui"].fields["theme"] == JStr("light")
  {
  }

  /** A two-key path under an existing section reads that section's field
      and can be written. */
  lemma TwoKeyPath(m: map<string, Json>, a: string, b: string, v: Json)
    requires a in m && m[a].JObj? && b in m[a].fields
    ensures GetPath(JObj(m), [a, b]) == Some(m[a].fields[b])
    ensures SetPath(m, [a, b], v).Some?
  {
    assert [a, b][1..] == [b] && [b][1..] == [];
  }

  /** The instance: with no settings file and a failing save,
      `set_setting("ui.theme", "dark")` returns False, and `get_setting`
      then answers "dark" where it answered "light" before. */
  lemma ThemeLeak()
    ensures GetPath(JObj(Loaded(DefaultSettings, Missing)), ["ui", "theme"]) == Some(JStr("light"))
    ensures var r := SetSettingAsWritten(DefaultSettings, Missing, false, "ui.theme", JStr("dark"));
      && !r.ok
      && GetPath(JObj(Loaded(r.defaults, r.file)), ["ui", "theme"]) == Some(JStr("dark"))
  {
    SplitThemePath();
    DefaultTheme();
    TwoKeyPath(DefaultSettings, "ui", "theme", JStr("dark"));
    SetSettingLeaksIntoDefaults(DefaultSettings, Missing, "ui.theme", JStr("dark"));
  }

  // ---------------------------------------------------------------------
  // The manager

  /** `ConfigManager` with `set_setting` corrected to leave the defaults
      alone; `writable` says whether saving succeeds. */
  class ConfigManager {
    const defaults: map<string, Json>
    const writable: bool
    var settingsFile: StoredFile
    var modelsFile: StoredFile

    /** `__init__` and `ensure_default_files`: a missing file is written
        with the defaults when saving works. */
    constructor(settingsFile: StoredFile, modelsFile: StoredFile, writable: bool)
      ensures defaults == DefaultSettings && this.writable == writable
      ensures this.settingsFile == if settingsFile.Missing? && writable then Stored(JObj(DefaultSettings)) else settingsFile
      ensures this.modelsFile == if modelsFile.Missing? && writable then Stored(JObj(DefaultModels)) else modelsFile
    {
      defaults := DefaultSettings;
      this.writable := writable;
      this.settingsFile := if settingsFile.Missing? && writable then Stored(JObj(DefaultSettings)) else settingsFile;
      this.modelsFile := if modelsFile.Missing? && writable then Stored(JObj(DefaultModels)) else modelsFile;
    }

    /** `load_settings`. */
    function LoadSettings(): (s: map<string, Json>)
      reads this
      ensures defaults.Keys <= s.Keys
      ensures FileObject(settingsFile).None? ==> s == defaults
    {
      Loaded(defaults, settingsFile)
    }

    /** `get_setting`: follow the dotted path through the loaded settings;
        `default` when a key is missing or a value on the way is not an
        object. */
    method GetSetting(keyPath: string, default: Json) returns (value: Json)
      ensures GetPath(JObj(LoadSettings()), SplitOn(keyPath, '.')) == Some(value)
        || (GetPath(JObj(LoadSettings()), SplitOn(keyPath, '.')).None? && value == default)
    {
      var keys := SplitOn(keyPath, '.');
      var cursor := JObj(LoadSettings());
      for i := 0 to |keys|
        invariant GetPath(JObj(LoadSettings()), keys) == GetPath(cursor, keys[i..])
      {
        if !cursor.JObj? || keys[i] !in cursor.fields {
          return default;
        }
        assert keys[i..][1..] == keys[i + 1..];
        cursor := cursor.fields[keys[i]];
      }
      value := cursor;
    }

    /** `set_setting`: update the loaded settings along the dotted path and
        save the whole tree; False when the walk is blocked or saving fails,
        in which case nothing changes. */
    method SetSetting(keyPath: string, v: Json) returns (ok: bool)
      modifies this`settingsFile
      ensures var updated := SetPath(old(LoadSettings()), SplitOn(keyPath, '.'), v);
        && (ok <==> writable && !Blocked(old(LoadSettings()), SplitOn(keyPath, '.')))
        && (ok ==> updated.Some? && settingsFile == Stored(JObj(updated.value)))
        && (!ok ==> settingsFile == old(settingsFile))
    {
      var keys := SplitOn(keyPath, '.');
      SetPathSucceeds(LoadSettings(), keys, v);
      var updated := SetPath(LoadSettings(), keys, v);
      if updated.None? || !writable {
        return false;
      }
      settingsFile := Stored(JObj(updated.value));
      return true;
    }

    /** `get_selected_model`. */
    function GetSelectedModel(): (r: Option<Json>)
      reads this
      ensures FileObject(modelsFile).None? && !modelsFile.Stored? ==> r == Some(JStr(DefaultSelectedModel))
      ensures FileObject(modelsFile).Some? ==>
        r == Some(if "selected_model" in FileObject(modelsFile).value
                  then FileObject(modelsFile).value["selected_model"] else JStr(DefaultSelectedModel))
      ensures r.None? <==> modelsFile.Stored? && !modelsFile.content.JObj?
    {
      SelectedModel(modelsFile)
    }
  }

  /** After a successful `set_setting(p, v)`, reloading gives `v` back at
      `p`, merged with the defaults' object there when both are objects. */
  lemma SetThenGet(defaults: map<string, Json>, file: StoredFile, keyPath: string, v: Json)
    requires SetPath(Loaded(defaults, file), SplitOn(keyPath, '.'), v).Some?
    ensures var keys := SplitOn(keyPath, '.');
      var saved := Stored(JObj(SetPath(Loaded(defaults, file), keys, v).value));
      var d := GetPath(JObj(defaults), keys);
      GetPath(JObj(Loaded(defaults, saved)), keys) ==
        if v.JObj? && d.Some? && d.value.JObj? then Some(JObj(Merge(d.value.fields, v.fields))) else Some(v)
  {
    var keys := SplitOn(keyPath, '.');
    var u := SetPath(Loaded(defaults, file), keys, v).value;
    SetPathReadsBack(Loaded(defaults, file), keys, v);
    MergeReadsUpdate(defaults, u, keys, v);
  }
}
