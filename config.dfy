/**
 * The assistant's configuration (`Config`): the built-in defaults, a shallow
 * update with the mapping read from the YAML file, and lookup with a fallback.
 *
 * Reading and parsing the file is a collaborator: its outcome (a read or parse
 * error, or the parsed document) is an input.
 */
module Configuration {

  /** A YAML value as `yaml.safe_load` returns it (`None` for an empty document). */
  datatype Value =
    | Null
    | Bool(b: bool)
    | Int(i: int)
    | Str(s: string)
    | List(items: seq<Value>)
    | Dict(entries: map<string, Value>)

  type Settings = map<string, Value>

  /** `DEFAULTS`. */
  const DEFAULTS: Settings := map[
    "app" := Dict(map["name" := Str("AI Assistant"), "version" := Str("0.1.0")]),
    "logging" := Dict(map["level" := Str("INFO")]),
    "server" := Dict(map["host" := Str("127.0.0.1"), "port" := Int(8000)]),
    "ENABLE_CONTINUOUS_LISTENING" := Bool(false)
  ]

  /** Python truthiness: `None`, `False`, zero and empty strings, lists and mappings are false. */
  predicate Truthy(v: Value)
  {
    match v
    case Null => false
    case Bool(b) => b
    case Int(i) => i != 0
    case Str(s) => s != ""
    case List(items) => items != []
    case Dict(entries) => entries != map[]
  }

  /** The outcome of opening and parsing the file. */
  datatype Loaded = ReadFailed | Parsed(document: Value)

  /** The keys the file sets: those of a non-empty mapping document, none otherwise. */
  function UserSettings(loaded: Loaded): Settings
  {
    if loaded.Parsed? && loaded.document.Dict? then loaded.document.entries else map[]
  }

  /**
   * `Config.__init__`: the defaults, with every top-level key of a non-empty
   * mapping document set to the document's value. A failed read, an empty
   * document and a document that is not a mapping (`update` raises, and the
   * error is logged) leave the defaults.
   */
  function Merged(loaded: Loaded): (settings: Settings)
    ensures settings.Keys == DEFAULTS.Keys + UserSettings(loaded).Keys
    ensures forall key :: key in UserSettings(loaded) ==> settings[key] == UserSettings(loaded)[key]
    ensures forall key :: key in DEFAULTS && key !in UserSettings(loaded) ==> settings[key] == DEFAULTS[key]
    ensures UserSettings(loaded) == map[] ==> settings == DEFAULTS
  {
    match loaded
    case ReadFailed => DEFAULTS
    case Parsed(document) =>
      if Truthy(document) then
        match document
        case Dict(entries) => DEFAULTS + entries
        case _ => DEFAULTS
      else
        DEFAULTS
  }

  /** A failed read, an empty file and a falsy or non-mapping document all give the defaults. */
  lemma FallsBackToDefaults(loaded: Loaded)
    requires loaded.ReadFailed? || !Truthy(loaded.document) || !loaded.document.Dict?
    ensures Merged(loaded) == DEFAULTS
    ensures Merged(loaded)["ENABLE_CONTINUOUS_LISTENING"] == Bool(false)
  {
  }

  /**
   * The update is shallow: a file that sets only the server's host replaces
   * the whole "server" mapping, so the default port is gone.
   */
  lemma ShallowServerOverride(host: string)
    ensures var settings := Merged(Parsed(Dict(map["server" := Dict(map["host" := Str(host)])])));
      && settings["server"] == Dict(map["host" := Str(host)])
      && "port" !in settings["server"].entries
      && settings["app"] == DEFAULTS["app"]
  {
  }

  class Config {
    /** `self.config`. */
    var settings: Settings

    /** `__init__`: a copy of the defaults, updated with the file's mapping. */
    constructor(loaded: Loaded)
      ensures settings == Merged(loaded)
    {
      settings := DEFAULTS;
      if loaded.Parsed? && Truthy(loaded.document) {
        match loaded.document {
          case Dict(entries) =>
            settings := settings + entries;
          case _ =>
        }
      }
    }

    /** `get(key, default)`: the stored value when the key is present, `default` otherwise. */
    method Get(key: string, default: Value) returns (value: Value)
      ensures key in settings ==> value == settings[key]
      ensures key !in settings ==> value == default
    {
      value := if key in settings then settings[key] else default;
    }
  }
}
