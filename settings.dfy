/** `ConfigManager` (src/config_manager.py): the settings dictionary with its
    built-in defaults.  Reading and writing settings.json is not part of this
    model; what `load` finds on disk is passed in. */
module Settings {
  import opened Wrappers

  /** A JSON value of the settings file. */
  datatype Json = JNull | JBool(b: bool) | JInt(i: int) | JReal(r: real) | JString(s: string)

  /** What `load` finds: no file, a file `json.load` rejects (the error is
      printed and ignored), or the saved dictionary. */
  datatype SavedSettings = NoFile | Unreadable | Saved(values: map<string, Json>)

  /** The built-in defaults: six settings, the master volume a fraction in
      0.0..1.0. */
  function Defaults(): (d: map<string, Json>)
    ensures d.Keys == {"volume_master", "fullscreen", "last_skin", "difficulty", "show_hints", "auto_save"}
    ensures d["volume_master"].JReal? && 0.0 <= d["volume_master"].r <= 1.0
  {
    map["volume_master" := JReal(0.5), "fullscreen" := JBool(false), "last_skin" := JString("default"),
        "difficulty" := JInt(2), "show_hints" := JBool(true), "auto_save" := JBool(false)]
  }

  /** `dict.update`: the saved keys override, every other key keeps its value. */
  function Merged(config: map<string, Json>, saved: SavedSettings): (r: map<string, Json>)
    ensures saved.Saved? ==> r.Keys == config.Keys + saved.values.Keys
    ensures !saved.Saved? ==> r == config
    ensures forall k :: saved.Saved? && k in saved.values ==> k in r && r[k] == saved.values[k]
    ensures forall k :: k in config && !(saved.Saved? && k in saved.values) ==> k in r && r[k] == config[k]
  {
    if saved.Saved? then config + saved.values else config
  }

  class ConfigManager {
    const defaults: map<string, Json>
    var config: map<string, Json>

    /** The defaults are the built-in ones and never change. */
    ghost predicate Valid()
      reads this
    {
      defaults == Defaults()
    }

    /** Every default key has a value of its own in `config`: true from
        construction on, since no operation removes a key. */
    ghost predicate CoversDefaults()
      reads this
    {
      defaults.Keys <= config.Keys
    }

    /** Starts from a copy of the defaults and then loads the saved file. */
    constructor (saved: SavedSettings)
      ensures Valid() && CoversDefaults()
      ensures config == Merged(Defaults(), saved)
    {
      defaults := Defaults();
      config := Defaults();
      new;
      Load(saved);
    }

    /** `load`: merges the saved dictionary over the current settings; a
        missing or unreadable file changes nothing. */
    method Load(saved: SavedSettings)
      requires Valid()
      modifies this`config
      ensures Valid()
      ensures config == Merged(old(config), saved)
      ensures old(CoversDefaults()) ==> CoversDefaults()
    {
      if saved.Saved? {
        config := config + saved.values;
      }
    }

    /** `get`: the current value, or the default when the key was never set;
        None when neither has it. */
    function Get(key: string): (v: Option<Json>)
      reads this
      requires Valid()
      ensures key in config ==> v == Some(config[key])
      ensures key !in config && key in defaults ==> v == Some(defaults[key])
      ensures v.None? <==> key !in config && key !in defaults
      ensures CoversDefaults() && key in Defaults() ==> v.Some?
    {
      if key in config then Some(config[key])
      else if key in defaults then Some(defaults[key])
      else None
    }

    /** `set`: stores the value (writing the file is not modelled); that key
        now reads back the value and no other key changes. */
    method Set(key: string, value: Json)
      requires Valid()
      modifies this`config
      ensures Valid()
      ensures config == old(config)[key := value]
      ensures old(CoversDefaults()) ==> CoversDefaults()
      ensures Get(key) == Some(value)
      ensures forall k :: k != key ==> Get(k) == old(Get(k))
    {
      config := config[key := value];
    }
  }

  /** Before anything is saved, the settings are exactly the defaults. */
  lemma FreshSettingsAreDefaults(saved: SavedSettings)
    requires !saved.Saved?
    ensures Merged(Defaults(), saved) == Defaults()
  {
  }
}
