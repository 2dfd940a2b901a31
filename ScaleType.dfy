/** `ScaleType`: a named, inheritable description of the sizes a part may take.
    A SCALETYPE record names its parent in `type`; every field the record leaves out
    is taken from the resolved parent, and a chain of repair rules then fills in
    the tech list, the bounds, the default scale and the UI increments. */
module ScaleTypes {
  import opened Wrappers
  import opened Text
  import opened Tools
  import opened Config
  import Tech

  /** `ScaleType.NodeInfo`: the family of an attach node (`None` where the C# field
      stays null) and its scale. */
  datatype NodeInfo = NodeInfo(family: Option<string>, scale: real)

  /** `new NodeInfo(s)` for an ATTACHNODES value, written `"scale"` or
      `"family:scale"`. Without a colon the family stays unset; with one, the family is
      the text before the first colon and the scale is parsed from the second piece.
      A scale that does not parse is 0, the value `float.TryParse` leaves behind, and
      in the colon form the family then stays unset too. */
  function ParseNodeInfo(s: string, parseFloat: string -> Option<real>): NodeInfo {
    var parts := Split(s, ':');
    if |parts| == 1 then NodeInfo(None, parseFloat(parts[0]).GetOr(0.0))
    else
      match parseFloat(parts[1])
      case None => NodeInfo(None, 0.0)
      case Some(scale) => NodeInfo(Some(parts[0]), scale)
  }

  /** The exponent table, keyed by module name. It is built by
      `ScaleExponents.CreateExponentsForModule`, which is not part of this model, and
      its entries are never inspected here. */
  type Exponents = map<string, string>

  datatype ScaleType = ScaleType(
    name: Option<string>,
    family: Option<string>,
    isFreeScale: bool,
    minValue: real,
    maxValue: real,
    defaultScale: real,
    scaleFactors: seq<real>,
    scaleNames: seq<string>,
    techRequired: seq<string>,
    scaleNodes: seq<int>,
    suffix: string,
    attachNodes: map<string, NodeInfo>,
    incrementLarge: real,
    incrementSmall: real,
    incrementSlide: real,
    exponents: Exponents)

  const DefaultScaleFactors: seq<real> := [0.625, 1.25, 2.5, 3.75, 5.0]
  const DefaultScaleNames: seq<string> := ["62.5cm", "1.25m", "2.5m", "3.75m", "5m"]

  /** The field initialisers of `ScaleType`, with `ScaleNodes` empty: what
      `new ScaleType(config)` yields when it returns early. */
  const Initial: ScaleType := ScaleType(
    name := None,
    family := None,
    isFreeScale := false,
    minValue := 0.0,
    maxValue := 0.0,
    defaultScale := 1.25,
    scaleFactors := DefaultScaleFactors,
    scaleNames := DefaultScaleNames,
    techRequired := ["", "", "", "", ""],
    scaleNodes := [],
    suffix := "m",
    attachNodes := map[],
    incrementLarge := 0.0,
    incrementSmall := 0.0,
    incrementSlide := 0.0,
    exponents := map[])

  /** `DefaultScaleType`, built by the private constructor: the initialisers plus a
      `"base"` attach node of family `""` and scale 1. */
  const DefaultScaleType: ScaleType := Initial.(attachNodes := map["base" := NodeInfo(Some(""), 1.0)])

  /** What resolution reads besides the record itself: the SCALETYPE records of
      `GameDatabase.Instance`, the text parsers, and the exponent-table builder. */
  datatype Env = Env(
    db: seq<UrlConfig>,
    parsers: Parsers,
    createExponents: (ConfigNode, Exponents) -> Exponents)

  /** The early-return test of `ScaleType(ConfigNode)`: no record, or a record whose
      name is missing or is `"default"`. */
  predicate IsDefaultRecord(config: Option<ConfigNode>) {
    config.None? || ConfigString(config.value, "name", "default") == "default"
  }

  /** The name of the parent record, `"default"` when `type` is missing. */
  function ParentName(config: ConfigNode): string {
    ConfigString(config, "type", "default")
  }

  /** Resolving `config` follows at most `n` parent links before it stops. The C# code
      has no cycle check, so a record whose chain of `type` names comes back to itself
      recurses without end; a bound on the chain is what resolution requires. */
  predicate ChainBounded(db: seq<UrlConfig>, config: Option<ConfigNode>, n: nat)
    decreases n, 1
  {
    IsDefaultRecord(config) || NameChainBounded(db, ParentName(config.value), n)
  }

  /** Looking up `name` and resolving what is found follows at most `n` parent links. */
  predicate NameChainBounded(db: seq<UrlConfig>, name: string, n: nat)
    decreases n, 0
  {
    match FindConfig(db, name)
    case None => true
    case Some(u) => n > 0 && ChainBounded(db, Some(u.config), n - 1)
  }

  /** The names the ATTACHNODES values are filed under. */
  function OverrideNames(values: seq<ConfigValue>): set<string> {
    set i | 0 <= i < |values| :: values[i].name
  }

  /** The last value filed under `key`: the one a `foreach` that assigns each value
      in turn leaves in the dictionary. */
  function LastValue(values: seq<ConfigValue>, key: string): (r: Option<string>)
    ensures r.Some? <==> key in OverrideNames(values)
    ensures r.Some? ==> exists i :: 0 <= i < |values| && values[i] == ConfigValue(key, r.value)
                           && forall j :: i < j < |values| ==> values[j].name != key
  {
    if |values| == 0 then None
    else if values[|values| - 1].name == key then Some(values[|values| - 1].value)
    else
      var front := values[..|values| - 1];
      var r := LastValue(front, key);
      assert OverrideNames(values) == OverrideNames(front) + {values[|values| - 1].name};
      assert forall i :: 0 <= i < |front| ==> front[i] == values[i];
      r
  }

  /** A copy of `source` with every ATTACHNODES value parsed into a `NodeInfo` and
      stored under its name, a later value of the same name replacing an earlier one. */
  function Merged(values: seq<ConfigValue>, source: map<string, NodeInfo>, parseFloat: string -> Option<real>): map<string, NodeInfo> {
    map k | k in source.Keys + OverrideNames(values) ::
      if LastValue(values, k).Some? then ParseNodeInfo(LastValue(values, k).value, parseFloat) else source[k]
  }

  /** `GetNodeFactors(node, source)`: the parent's attach nodes with the record's
      overrides merged in, plus a `"base"` node of the record's family and scale 1
      when neither supplies one. */
  function NodeFactors(node: Option<seq<ConfigValue>>, source: map<string, NodeInfo>, family: string,
                       parseFloat: string -> Option<real>): map<string, NodeInfo>
  {
    var merged := Merged(if node.Some? then node.value else [], source, parseFloat);
    if "base" in merged then merged else merged["base" := NodeInfo(Some(family), 1.0)]
  }

  /** Storing one more value extends the merge by that value. */
  lemma MergedStep(values: seq<ConfigValue>, v: ConfigValue, source: map<string, NodeInfo>, parseFloat: string -> Option<real>)
    ensures Merged(values + [v], source, parseFloat) == Merged(values, source, parseFloat)[v.name := ParseNodeInfo(v.value, parseFloat)]
  {
    var longer := values + [v];
    assert longer[..|longer| - 1] == values;
    assert forall i :: 0 <= i < |values| ==> longer[i] == values[i];
    assert longer[|values|] == v;
    assert OverrideNames(longer) == OverrideNames(values) + {v.name};
  }

  /** `GetNodeFactors` as the C# code runs it: clone the parent's dictionary, assign
      each override in turn, then add `"base"` if it is missing. */
  method GetNodeFactors(node: Option<seq<ConfigValue>>, source: map<string, NodeInfo>, family: string,
                        parseFloat: string -> Option<real>) returns (result: map<string, NodeInfo>)
    ensures result == NodeFactors(node, source, family, parseFloat)
  {
    result := source;
    assert result == Merged([], source, parseFloat);
    if node.Some? {
      var values := node.value;
      var i := 0;
      while i < |values|
        invariant 0 <= i <= |values|
        invariant result == Merged(values[..i], source, parseFloat)
      {
        MergedStep(values[..i], values[i], source, parseFloat);
        assert values[..i + 1] == values[..i] + [values[i]];
        result := result[values[i].name := ParseNodeInfo(values[i].value, parseFloat)];
        i := i + 1;
      }
      assert values[..|values|] == values;
    }
    if "base" !in result {
      result := result["base" := NodeInfo(Some(family), 1.0)];
    }
  }

  /** Lines 200-218 of the constructor: each field is the record's own value when it
      has one and the parent's otherwise, names and techs trimmed; `name` and
      `family` fall back to fixed texts instead, and the placeholder name
      `"TweakScale"` takes the parent's name. */
  function Inherit(p: Parsers, config: ConfigNode, source: ScaleType): ScaleType {
    var family := ConfigString(config, "family", "default");
    var name := ConfigString(config, "name", "unnamed scaletype");
    ScaleType(
      name := if name == "TweakScale" then source.name else Some(name),
      family := Some(family),
      isFreeScale := ConfigParsed(config, "freeScale", source.isFreeScale, p.parseBool),
      minValue := ConfigParsed(config, "minScale", source.minValue, p.parseFloat),
      maxValue := ConfigParsed(config, "maxScale", source.maxValue, p.parseFloat),
      defaultScale := Initial.defaultScale,
      scaleFactors := ConfigParsed(config, "scaleFactors", source.scaleFactors, p.parseFloats),
      scaleNames := TrimAll(ConfigParsed(config, "scaleNames", source.scaleNames, p.parseStrings)),
      techRequired := TrimAll(ConfigParsed(config, "techRequired", source.techRequired, p.parseStrings)),
      scaleNodes := ConfigParsed(config, "scaleNodes", source.scaleNodes, p.parseInts),
      suffix := ConfigString(config, "suffix", source.suffix),
      attachNodes := NodeFactors(config.attachNodes, source.attachNodes, family, p.parseFloat),
      incrementLarge := ConfigParsed(config, "incrementLarge", source.incrementLarge, p.parseFloat),
      incrementSmall := ConfigParsed(config, "incrementSmall", source.incrementSmall, p.parseFloat),
      incrementSlide := ConfigParsed(config, "incrementSlide", source.incrementSlide, p.parseFloat),
      exponents := Initial.exponents)
  }

  /** Lines 225-267 of the constructor, given the declared default scale: pad a short
      tech list with `""`, read a zero bound as unset, snap the default scale to a
      scale factor unless the type is free-scale, clamp it, and read a zero large or
      slide increment as unset. The small increment is left as it is. */
  function Repair(st: ScaleType, declaredDefault: real): ScaleType {
    var factors := st.scaleFactors;
    var techRequired :=
      if |st.techRequired| < |factors| then PadRight(st.techRequired, |factors|, "") else st.techRequired;
    var maxValue :=
      if st.maxValue != 0.0 then st.maxValue
      else if |factors| > 0 then Max(factors)
      else declaredDefault * 4.0;
    var minValue :=
      if st.minValue != 0.0 then st.minValue
      else if |factors| > 0 then Min(factors)
      else declaredDefault * 0.5;
    var snapped := if st.isFreeScale then declaredDefault else Closest(declaredDefault, factors);
    st.(
      techRequired := techRequired,
      maxValue := maxValue,
      minValue := minValue,
      defaultScale := Clamp(snapped, minValue, maxValue),
      incrementLarge := if st.incrementLarge == 0.0 then maxValue else st.incrementLarge,
      incrementSlide := if st.incrementSlide == 0.0 then maxValue / 200.0 else st.incrementSlide)
  }

  /** `new ScaleType(config)`. */
  function Resolve(env: Env, config: Option<ConfigNode>, ghost n: nat): ScaleType
    requires ChainBounded(env.db, config, n)
    decreases n, 1
  {
    if IsDefaultRecord(config) then Initial
    else
      var c := config.value;
      var source := GetScaleConfig(env, ParentName(c), n);
      var declaredDefault := ConfigParsed(c, "defaultScale", source.defaultScale, env.parsers.parseFloat);
      Repair(Inherit(env.parsers, c, source), declaredDefault).(exponents := env.createExponents(c, source.exponents))
  }

  /** `GetScaleConfig(name)`: the first record filed under `name`, resolved afresh on
      every call, or `DefaultScaleType` when there is none. */
  function GetScaleConfig(env: Env, name: string, ghost n: nat): ScaleType
    requires NameChainBounded(env.db, name, n)
    decreases n, 0
  {
    match FindConfig(env.db, name)
    case None => DefaultScaleType
    case Some(u) => Resolve(env, Some(u.config), n - 1)
  }

  /** `AllScaleFactors`: every scale factor, whatever is unlocked. */
  function AllScaleFactors(st: ScaleType): seq<real> {
    st.scaleFactors
  }

  /** `ScaleFactors`: the scale factors whose tech is unlocked. */
  function ScaleFactors(st: ScaleType, game: Option<Tech.Game>, unlocked: set<string>): seq<real> {
    ZipFilter(st.scaleFactors, st.techRequired, Tech.Gate(game, unlocked))
  }

  /** `ScaleNames`: the scale names whose tech is unlocked. */
  function ScaleNames(st: ScaleType, game: Option<Tech.Game>, unlocked: set<string>): seq<string> {
    ZipFilter(st.scaleNames, st.techRequired, Tech.Gate(game, unlocked))
  }

  /** `operator ==` on two possibly null scale types, and `Equals`: identity is the name. */
  predicate SameScaleType(a: Option<ScaleType>, b: Option<ScaleType>) {
    if a.None? then b.None?
    else if b.None? then false
    else a.value.name == b.value.name
  }

  /** The lazily filled static list `AllScaleTypes`. */
  class ScaleTypeRegistry {
    var scaleTypes: Option<seq<ScaleType>>

    constructor ()
      ensures scaleTypes == None
    {
      scaleTypes := None;
    }

    /** The first call resolves every SCALETYPE record of the database, in database
        order, and keeps the list; every later call returns that same list. `depths`
        bounds the parent chain of each record. */
    method AllScaleTypes(env: Env, ghost depths: seq<nat>) returns (all: seq<ScaleType>)
      requires |depths| == |env.db|
      requires forall i :: 0 <= i < |env.db| ==> ChainBounded(env.db, Some(env.db[i].config), depths[i])
      modifies this
      ensures old(scaleTypes).Some? ==> all == old(scaleTypes).value && scaleTypes == old(scaleTypes)
      ensures old(scaleTypes).None? ==> scaleTypes == Some(all) && |all| == |env.db|
      ensures old(scaleTypes).None? ==>
        forall i :: 0 <= i < |all| ==> all[i] == Resolve(env, Some(env.db[i].config), depths[i])
    {
      if scaleTypes.None? {
        scaleTypes := Some(seq(|env.db|, i requires 0 <= i < |env.db| => Resolve(env, Some(env.db[i].config), depths[i])));
      }
      all := scaleTypes.value;
    }
  }
}
