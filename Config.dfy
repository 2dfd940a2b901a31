/** The already-parsed configuration database: SCALETYPE records made of ordered
    key/value pairs plus an optional ATTACHNODES child, the typed lookup that
    `Tools.ConfigValue` performs on them, and `GameDatabase.GetConfigs("SCALETYPE")`. */
module Config {
  import opened Wrappers

  datatype ConfigValue = ConfigValue(name: string, value: string)

  /** One record: its values in file order, and the values of its first ATTACHNODES
      child, when it has one. */
  datatype ConfigNode = ConfigNode(values: seq<ConfigValue>, attachNodes: Option<seq<ConfigValue>>)

  /** A database entry: the name the database files the record under, and the record. */
  datatype UrlConfig = UrlConfig(name: string, config: ConfigNode)

  /** The text parsers that `Tools.ConfigValue` applies to a value; each yields `None`
      when the text does not parse. `parseFloat` is `float.TryParse`. */
  datatype Parsers = Parsers(
    parseBool: string -> Option<bool>,
    parseFloat: string -> Option<real>,
    parseFloats: string -> Option<seq<real>>,
    parseInts: string -> Option<seq<int>>,
    parseStrings: string -> Option<seq<string>>)

  /** `ConfigNode.GetValue(key)`: the first value filed under `key`. */
  function GetValue(values: seq<ConfigValue>, key: string): (r: Option<string>)
    ensures r.None? <==> forall i :: 0 <= i < |values| ==> values[i].name != key
    ensures r.Some? ==> (exists i :: 0 <= i < |values| && values[i] == ConfigValue(key, r.value)
                           && forall j :: 0 <= j < i ==> values[j].name != key)
  {
    if |values| == 0 then None
    else if values[0].name == key then Some(values[0].value)
    else
      var r := GetValue(values[1..], key);
      assert r.Some? ==> (exists i :: 0 <= i < |values| - 1 && values[1..][i] == ConfigValue(key, r.value)
                            && forall j :: 0 <= j < i ==> values[1..][j].name != key);
      r
  }

  /** `Tools.ConfigValue(config, key, default)` for a string: the record's own value
      when it has one, `default` otherwise. */
  function ConfigString(config: ConfigNode, key: string, default: string): string {
    GetValue(config.values, key).GetOr(default)
  }

  /** `Tools.ConfigValue(config, key, default)` for a parsed type: the record's own
      value when it has one that parses, `default` otherwise. */
  function ConfigParsed<T>(config: ConfigNode, key: string, default: T, parse: string -> Option<T>): T {
    match GetValue(config.values, key)
    case None => default
    case Some(text) => parse(text).GetOr(default)
  }

  /** `GetConfigs("SCALETYPE").FirstOrDefault(a => a.name == name)`. */
  function FindConfig(db: seq<UrlConfig>, name: string): (r: Option<UrlConfig>)
    ensures r.None? <==> forall i :: 0 <= i < |db| ==> db[i].name != name
    ensures r.Some? ==> (exists i :: 0 <= i < |db| && db[i] == r.value && r.value.name == name
                           && forall j :: 0 <= j < i ==> db[j].name != name)
  {
    if |db| == 0 then None
    else if db[0].name == name then Some(db[0])
    else
      var r := FindConfig(db[1..], name);
      assert r.Some? ==> (exists i :: 0 <= i < |db| - 1 && db[1..][i] == r.value
                            && forall j :: 0 <= j < i ==> db[1..][j].name != name);
      r
  }
}
