/**
 * The settings store of the main process (src/main/settings.js): one JSON
 * object in `settings.json` under the per-installation directory, read in
 * full and rewritten in full on every change.
 */
module Settings {
  import opened Wrappers
  import opened Disk

  /** The values a setting can hold; Undefined is JavaScript's `undefined`. */
  datatype Value = Undefined | Null | Bool(b: bool) | Number(n: int) | Str(s: string)

  /** What JSON.parse makes of the settings file: an object, or text that does not parse. */
  datatype SettingsFile = Document(entries: map<string, Value>) | Unparsable

  const FileName: string := "settings.json"

  /** readSettings: the stored object, or {} when the file is missing or does not parse. */
  function ReadSettings(fs: Volume<SettingsFile>, path: Path): (doc: map<string, Value>)
    ensures !IsFile(fs, path) ==> doc == map[]
    ensures IsFile(fs, path) && fs[path].content.Unparsable? ==> doc == map[]
    ensures IsFile(fs, path) && fs[path].content.Document? ==> doc == fs[path].content.entries
  {
    if path !in fs then map[]
    else
      var read := ReadFile(fs, path);
      if read.Ok? && read.value.Document? then read.value.entries else map[]
  }

  /** What JSON.stringify keeps of an object: every member whose value is not undefined. */
  function Serialize(doc: map<string, Value>): (stored: map<string, Value>)
    ensures forall k :: k in stored <==> k in doc && doc[k] != Undefined
    ensures forall k :: k in stored ==> stored[k] == doc[k]
  {
    map k | k in doc && doc[k] != Undefined :: doc[k]
  }

  /** `doc[key] ?? null` */
  function Lookup(doc: map<string, Value>, key: string): (v: Value)
    ensures v != Undefined
    ensures v == Null <==> key !in doc || doc[key] == Null || doc[key] == Undefined
    ensures v != Null ==> key in doc && v == doc[key]
  {
    if key in doc && doc[key] != Null && doc[key] != Undefined then doc[key] else Null
  }

  /** What the settings file holds after `settings[key] = value` and writeSettings. */
  function Assigned(doc: map<string, Value>, key: string, value: Value): (r: map<string, Value>)
    ensures forall k :: k in r <==> if k == key then value != Undefined else k in doc && doc[k] != Undefined
    ensures forall k :: k in r ==> r[k] == if k == key then value else doc[k]
  {
    Serialize(doc[key := value])
  }

  /** A value other than null and undefined is read back as set. */
  lemma GetAfterSet(doc: map<string, Value>, key: string, value: Value)
    requires value != Null && value != Undefined
    ensures Lookup(Assigned(doc, key, value), key) == value
  {
  }

  /** Setting undefined removes the key from the file, so it reads back as null. */
  lemma SetUndefinedRemoves(doc: map<string, Value>, key: string)
    ensures key !in Assigned(doc, key, Undefined)
    ensures Lookup(Assigned(doc, key, Undefined), key) == Null
  {
  }

  /** Every other key reads back as before. */
  lemma SetLeavesOtherKeys(doc: map<string, Value>, key: string, value: Value, other: string)
    requires other != key
    ensures Lookup(Assigned(doc, key, value), other) == Lookup(doc, other)
  {
  }

  /** Setting the same key to the same value twice gives the same document as once. */
  lemma SetIdempotent(doc: map<string, Value>, key: string, value: Value)
    ensures Assigned(Assigned(doc, key, value), key, value) == Assigned(doc, key, value)
  {
    var once := Assigned(doc, key, value);
    var twice := Assigned(once, key, value);
    assert twice.Keys == once.Keys;
  }

  /** Over a missing or unparsable file the new document holds only the key. */
  lemma SetOnEmpty(key: string, value: Value)
    ensures Assigned(map[], key, value) == if value == Undefined then map[] else map[key := value]
  {
    if value == Undefined {
      assert Assigned(map[], key, value).Keys == {};
    } else {
      assert Assigned(map[], key, value).Keys == {key};
    }
  }

  /** The installation's settings file over one volume. */
  class SettingsStore {
    /** app.getPath('userData'), fixed for the installation. */
    const dir: Path
    var fs: Volume<SettingsFile>

    /** Every entry of the volume lies inside a directory. */
    ghost predicate Valid()
      reads this
    {
      WellFormed(fs)
    }

    constructor (userData: Path, initial: Volume<SettingsFile>)
      requires WellFormed(initial)
      ensures Valid() && dir == userData && fs == initial
    {
      dir := userData;
      fs := initial;
    }

    /** SETTINGS_PATH: join(SETTINGS_DIR, 'settings.json'). */
    function SettingsPath(): (p: Path)
      ensures |p| == |dir| + 1 && p[..|dir|] == dir && p[|dir|] == FileName
      ensures Dirname(p) == dir
    {
      Join(dir, FileName)
    }

    /** getSetting(key): the stored value, or null when it is absent, null or unreadable. */
    function GetSetting(key: string): (v: Value)
      reads this
      ensures v != Undefined
      ensures !IsFile(fs, SettingsPath()) || fs[SettingsPath()].content.Unparsable? ==> v == Null
      ensures v != Null ==> IsFile(fs, SettingsPath()) && fs[SettingsPath()].content.Document?
                            && key in fs[SettingsPath()].content.entries
                            && fs[SettingsPath()].content.entries[key] == v
      ensures IsFile(fs, SettingsPath()) && fs[SettingsPath()].content.Document?
              && key in fs[SettingsPath()].content.entries
              && fs[SettingsPath()].content.entries[key] !in {Null, Undefined}
              ==> v == fs[SettingsPath()].content.entries[key]
    {
      Lookup(ReadSettings(fs, SettingsPath()), key)
    }

    /** writeSettings(data): creates the directory if it is missing, then rewrites the file. */
    method WriteSettings(data: map<string, Value>) returns (r: Outcome<IoError>)
      requires Valid()
      modifies this
      ensures Valid()
      ensures match EnsureDir(old(fs), dir)
              case Err(e) => fs == old(fs) && r == Fail(e)
              case Ok(made) =>
                var w := WriteFile(made, SettingsPath(), Document(Serialize(data)));
                if w.Ok? then fs == w.value && r == Pass else fs == made && r == Fail(w.error)
      ensures r.Pass? ==> IsDir(fs, dir) && ReadSettings(fs, SettingsPath()) == Serialize(data)
    {
      if dir !in fs {
        var made := MkdirP(fs, dir);
        if made.Err? {
          return Fail(made.error);
        }
        MkdirPKeepsWellFormed(fs, dir);
        fs := made.value;
      }
      var written := WriteFile(fs, SettingsPath(), Document(Serialize(data)));
      if written.Err? {
        return Fail(written.error);
      }
      WriteFileKeepsWellFormed(fs, SettingsPath(), Document(Serialize(data)));
      fs := written.value;
      r := Pass;
    }

    /** setSetting(key, value): read the whole document, assign one key, write it all back. */
    method SetSetting(key: string, value: Value) returns (r: Outcome<IoError>)
      requires Valid()
      modifies this
      ensures Valid()
      ensures var data := old(ReadSettings(fs, SettingsPath()))[key := value];
              match EnsureDir(old(fs), dir)
              case Err(e) => fs == old(fs) && r == Fail(e)
              case Ok(made) =>
                var w := WriteFile(made, SettingsPath(), Document(Serialize(data)));
                if w.Ok? then fs == w.value && r == Pass else fs == made && r == Fail(w.error)
      ensures r.Pass? ==>
                ReadSettings(fs, SettingsPath()) == Assigned(old(ReadSettings(fs, SettingsPath())), key, value)
      ensures r.Pass? ==> GetSetting(key) == (if value == Undefined then Null else value)
      ensures r.Pass? ==> forall k :: k != key ==> GetSetting(k) == old(GetSetting(k))
    {
      var settings := ReadSettings(fs, SettingsPath());
      ghost var before := settings;
      settings := settings[key := value];
      r := WriteSettings(settings);
      if r.Pass? {
        forall k | k != key ensures GetSetting(k) == Lookup(before, k) {
          SetLeavesOtherKeys(before, key, value, k);
        }
      }
    }
  }
}
