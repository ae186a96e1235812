/**
 * The live configuration record of the content script: a flat record kept in extension storage,
 * merged key by key, and read with JavaScript's truthiness.
 */
module Config {

  /** A stored value; `Undefined` stands for a key removed from storage (its `newValue` is absent). */
  datatype Value = Bool(b: bool) | Num(n: int) | Str(s: string) | Null | Undefined

  /** JavaScript truthiness of a stored value. */
  predicate Truthy(v: Value)
  {
    match v
    case Bool(b) => b
    case Num(n) => n != 0
    case Str(s) => s != ""
    case Null => false
    case Undefined => false
  }

  /** `config[key]`: a missing key reads as undefined. */
  function Lookup(config: map<string, Value>, key: string): Value
  {
    if key in config then config[key] else Undefined
  }

  /** `config.enabled`, as an `if` reads it. */
  predicate Enabled(config: map<string, Value>)
  {
    Truthy(Lookup(config, "enabled"))
  }

  const DEFAULT_CONFIG: map<string, Value> :=
    map["enabled" := Bool(true), "hoverDelay" := Num(200), "collapseDelay" := Num(500), "debug" := Bool(false)]

  /** `{...config, ...changes}`: changed keys take their new value, every other key keeps its own. */
  function Merge(config: map<string, Value>, changes: map<string, Value>): (r: map<string, Value>)
    ensures r.Keys == config.Keys + changes.Keys
    ensures forall k :: k in changes ==> r[k] == changes[k]
    ensures forall k :: k in config && k !in changes ==> r[k] == config[k]
  {
    config + changes
  }

  /** The defaults enable the extension with a 200 ms hover delay and a 500 ms collapse delay. */
  lemma DefaultsEnabled()
    ensures Enabled(DEFAULT_CONFIG)
    ensures Lookup(DEFAULT_CONFIG, "hoverDelay") == Num(200)
    ensures Lookup(DEFAULT_CONFIG, "collapseDelay") == Num(500)
    ensures !Truthy(Lookup(DEFAULT_CONFIG, "debug"))
  {
  }
}
