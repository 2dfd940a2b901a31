/** What resolution of a SCALETYPE record guarantees: the attach-node parser and
    merge, inheritance field by field, the repair rules, the tech gate over the
    scale steps, and name equality. */
module ScaleTypeProperties {
  import opened Wrappers
  import opened Text
  import opened Tools
  import opened Config
  import Tech
  import opened ScaleTypes

  // ---- NodeInfo(string) ----

  /** Without a colon the text is the scale (0 when it does not parse) and the family
      stays unset. With one, the family is the text before the first colon and the
      scale comes from the piece after it; when that piece does not parse, the scale
      is 0 and the family stays unset. */
  lemma ParseNodeInfoCases(s: string, parseFloat: string -> Option<real>)
    ensures ':' !in s ==> ParseNodeInfo(s, parseFloat) == NodeInfo(None, parseFloat(s).GetOr(0.0))
    ensures ':' in s ==>
      var k := IndexOf(s, ':');
      var second := Split(s[k + 1..], ':')[0];
      ParseNodeInfo(s, parseFloat)
        == if parseFloat(second).Some? then NodeInfo(Some(s[..k]), parseFloat(second).value) else NodeInfo(None, 0.0)
  {
    if ':' in s {
      SplitFirstPiece(s, ':');
    }
  }

  /** `"family:scale"` reads back as that family and scale. */
  lemma ParseNodeInfoFamilyForm(family: string, text: string, parseFloat: string -> Option<real>)
    requires ':' !in family && ':' !in text
    ensures parseFloat(text).Some? ==>
      ParseNodeInfo(family + [':'] + text, parseFloat) == NodeInfo(Some(family), parseFloat(text).value)
  {
    SplitCons(family, text, ':');
    assert Split(family + [':'] + text, ':') == [family, text];
  }

  /** Anything after a second colon is ignored. */
  lemma ParseNodeInfoIgnoresRest(family: string, text: string, rest: string, parseFloat: string -> Option<real>)
    requires ':' !in family && ':' !in text
    ensures ParseNodeInfo(family + [':'] + text + [':'] + rest, parseFloat) == ParseNodeInfo(family + [':'] + text, parseFloat)
  {
    SplitCons(family, text, ':');
    var short := Split(family + [':'] + text, ':');
    assert short == [family, text];
    SplitTwoPieces(family, text, rest, ':');
  }

  // ---- GetNodeFactors ----

  /** The merged table holds the parent's keys, the override keys and `"base"`; an
      overridden key maps to the parse of its last override, every other parent entry
      is kept, and `"base"` is added as the record's family at scale 1 only when
      neither side has one. */
  lemma NodeFactorsContents(node: Option<seq<ConfigValue>>, source: map<string, NodeInfo>, family: string,
                            parseFloat: string -> Option<real>)
    ensures var r := NodeFactors(node, source, family, parseFloat);
      var values := if node.Some? then node.value else [];
      && r.Keys == source.Keys + OverrideNames(values) + {"base"}
      && (forall k :: k in OverrideNames(values) ==> r[k] == ParseNodeInfo(LastValue(values, k).value, parseFloat))
      && (forall k :: k in source && k !in OverrideNames(values) ==> r[k] == source[k])
      && ("base" !in source && "base" !in OverrideNames(values) ==> r["base"] == NodeInfo(Some(family), 1.0))
  {
  }

  /** With no ATTACHNODES child, or an empty one, the table is the parent's, plus
      the guaranteed `"base"`. */
  lemma NodeFactorsWithoutOverrides(node: Option<seq<ConfigValue>>, source: map<string, NodeInfo>, family: string,
                                    parseFloat: string -> Option<real>)
    requires node.None? || node.value == []
    ensures NodeFactors(node, source, family, parseFloat)
      == if "base" in source then source else source["base" := NodeInfo(Some(family), 1.0)]
  {
    var values := if node.Some? then node.value else [];
    assert OverrideNames(values) == {};
    assert Merged(values, source, parseFloat) == source;
  }

  // ---- ScaleType(ConfigNode) ----

  /** The depth bound is only a termination measure: any two bounds that suffice give
      the same result. */
  lemma {:induction false} ResolveDepthIrrelevant(env: Env, config: Option<ConfigNode>, n: nat, m: nat)
    requires ChainBounded(env.db, config, n) && ChainBounded(env.db, config, m)
    ensures Resolve(env, config, n) == Resolve(env, config, m)
    decreases n, 1
  {
    if !IsDefaultRecord(config) {
      GetScaleConfigDepthIrrelevant(env, ParentName(config.value), n, m);
    }
  }

  lemma {:induction false} GetScaleConfigDepthIrrelevant(env: Env, name: string, n: nat, m: nat)
    requires NameChainBounded(env.db, name, n) && NameChainBounded(env.db, name, m)
    ensures GetScaleConfig(env, name, n) == GetScaleConfig(env, name, m)
    decreases n, 0
  {
    if FindConfig(env.db, name).Some? {
      GetScaleConfigFound(env, name, n);
      GetScaleConfigFound(env, name, m);
      ResolveDepthIrrelevant(env, Some(FindConfig(env.db, name).value.config), n - 1, m - 1);
    }
  }

  /** A name that is found resolves to the record filed under it, one link down. */
  lemma GetScaleConfigFound(env: Env, name: string, n: nat)
    requires NameChainBounded(env.db, name, n) && FindConfig(env.db, name).Some?
    ensures n > 0 && ChainBounded(env.db, Some(FindConfig(env.db, name).value.config), n - 1)
    ensures GetScaleConfig(env, name, n) == Resolve(env, Some(FindConfig(env.db, name).value.config), n - 1)
  {
  }

  /** A record whose own `type` finds the record itself has no bounded chain: the
      C# constructor would recurse on it for ever. */
  lemma {:induction false} SelfParentUnbounded(db: seq<UrlConfig>, config: ConfigNode, n: nat)
    requires !IsDefaultRecord(Some(config))
    requires FindConfig(db, ParentName(config)).Some? && FindConfig(db, ParentName(config)).value.config == config
    ensures !ChainBounded(db, Some(config), n)
  {
    var u := FindConfig(db, ParentName(config)).value;
    if n > 0 {
      SelfParentUnbounded(db, config, n - 1);
      assert !ChainBounded(db, Some(u.config), n - 1);
    }
    assert !NameChainBounded(db, ParentName(config), n);
  }

  /** Two records whose `type` names find each other have no bounded chain either:
      the constructor recurses between them for ever. */
  lemma {:induction false} TwoCycleUnbounded(db: seq<UrlConfig>, a: ConfigNode, b: ConfigNode, n: nat)
    requires !IsDefaultRecord(Some(a)) && !IsDefaultRecord(Some(b))
    requires FindConfig(db, ParentName(a)).Some? && FindConfig(db, ParentName(a)).value.config == b
    requires FindConfig(db, ParentName(b)).Some? && FindConfig(db, ParentName(b)).value.config == a
    ensures !ChainBounded(db, Some(a), n) && !ChainBounded(db, Some(b), n)
  {
    if n > 0 {
      TwoCycleUnbounded(db, a, b, n - 1);
      assert !ChainBounded(db, Some(b), n - 1) && !ChainBounded(db, Some(a), n - 1);
    }
    assert !NameChainBounded(db, ParentName(a), n);
    assert !NameChainBounded(db, ParentName(b), n);
  }

  /** A missing record, or one named `"default"` (or with no name), leaves every
      field at its initial value: no name, no family, no attach nodes at all. */
  lemma ResolveDefaultRecord(env: Env, config: Option<ConfigNode>, n: nat)
    requires ChainBounded(env.db, config, n) && IsDefaultRecord(config)
    ensures Resolve(env, config, n) == Initial
    ensures Resolve(env, config, n).name.None? && Resolve(env, config, n).attachNodes == map[]
  {
  }

  /** An unknown parent name falls back to `DefaultScaleType`, which has a `"base"`. */
  lemma GetScaleConfigUnknown(env: Env, name: string, n: nat)
    requires FindConfig(env.db, name).None?
    ensures NameChainBounded(env.db, name, n)
    ensures GetScaleConfig(env, name, n) == DefaultScaleType
    ensures "base" in GetScaleConfig(env, name, n).attachNodes
  {
  }

  /** Every field from `freeScale` to `incrementSlide` is the record's own value when
      it has one that parses, and the parent's otherwise; names and techs are trimmed;
      the family does not inherit but defaults to `"default"`; the small increment is
      never repaired. The exponent table is built from the record and the parent's table. */
  lemma ResolveInherits(env: Env, config: Option<ConfigNode>, n: nat)
    requires ChainBounded(env.db, config, n) && !IsDefaultRecord(config)
    ensures var c := config.value;
      var p := env.parsers;
      var source := GetScaleConfig(env, ParentName(c), n);
      var r := Resolve(env, config, n);
      && r.isFreeScale == ConfigParsed(c, "freeScale", source.isFreeScale, p.parseBool)
      && r.suffix == ConfigString(c, "suffix", source.suffix)
      && r.scaleFactors == ConfigParsed(c, "scaleFactors", source.scaleFactors, p.parseFloats)
      && r.scaleNodes == ConfigParsed(c, "scaleNodes", source.scaleNodes, p.parseInts)
      && r.scaleNames == TrimAll(ConfigParsed(c, "scaleNames", source.scaleNames, p.parseStrings))
      && (forall i :: 0 <= i < |r.scaleNames| ==> IsTrimmed(r.scaleNames[i]))
      && r.incrementSmall == ConfigParsed(c, "incrementSmall", source.incrementSmall, p.parseFloat)
      && r.family == Some(ConfigString(c, "family", "default"))
      && r.attachNodes == NodeFactors(c.attachNodes, source.attachNodes, ConfigString(c, "family", "default"), p.parseFloat)
      && r.exponents == env.createExponents(c, source.exponents)
  {
  }

  /** The record's own name is always present on this path (a missing one means the
      early return), so `"unnamed scaletype"` is never used; the placeholder
      `"TweakScale"` takes the parent's name, which may be unset. */
  lemma ResolveName(env: Env, config: Option<ConfigNode>, n: nat)
    requires ChainBounded(env.db, config, n) && !IsDefaultRecord(config)
    ensures var c := config.value;
      var own := GetValue(c.values, "name");
      var source := GetScaleConfig(env, ParentName(c), n);
      && own.Some?
      && Resolve(env, config, n).name == if own.value == "TweakScale" then source.name else Some(own.value)
  {
  }

  /** A tech list shorter than the scale factors is padded with `""` to exactly their
      length; one at least as long is kept as it is. */
  lemma ResolveTechRequired(env: Env, config: Option<ConfigNode>, n: nat)
    requires ChainBounded(env.db, config, n) && !IsDefaultRecord(config)
    ensures var c := config.value;
      var source := GetScaleConfig(env, ParentName(c), n);
      var declared := TrimAll(ConfigParsed(c, "techRequired", source.techRequired, env.parsers.parseStrings));
      var r := Resolve(env, config, n);
      && (|declared| < |r.scaleFactors| ==>
            |r.techRequired| == |r.scaleFactors| && r.techRequired[..|declared|] == declared
            && forall i :: |declared| <= i < |r.techRequired| ==> r.techRequired[i] == "")
      && (|declared| >= |r.scaleFactors| ==> r.techRequired == declared)
  {
  }

  /** Every resolved scale type has a tech entry for each scale factor. */
  lemma ResolvedTechCoversFactors(env: Env, config: Option<ConfigNode>, n: nat)
    requires ChainBounded(env.db, config, n)
    ensures |Resolve(env, config, n).scaleFactors| <= |Resolve(env, config, n).techRequired|
  {
  }

  /** Zero bounds and zero large/slide increments are read as unset: the maximum falls
      back to the largest factor (four times the declared default scale when there are
      none), the minimum to the smallest (half the declared default), the large
      increment to the maximum and the slide increment to a two-hundredth of it. */
  lemma ResolveFallbacks(env: Env, config: Option<ConfigNode>, n: nat)
    requires ChainBounded(env.db, config, n) && !IsDefaultRecord(config)
    ensures var c := config.value;
      var p := env.parsers;
      var source := GetScaleConfig(env, ParentName(c), n);
      var declaredDefault := ConfigParsed(c, "defaultScale", source.defaultScale, p.parseFloat);
      var max0 := ConfigParsed(c, "maxScale", source.maxValue, p.parseFloat);
      var min0 := ConfigParsed(c, "minScale", source.minValue, p.parseFloat);
      var large0 := ConfigParsed(c, "incrementLarge", source.incrementLarge, p.parseFloat);
      var slide0 := ConfigParsed(c, "incrementSlide", source.incrementSlide, p.parseFloat);
      var r := Resolve(env, config, n);
      var f := r.scaleFactors;
      && (max0 != 0.0 ==> r.maxValue == max0)
      && (max0 == 0.0 && |f| > 0 ==> r.maxValue in f && forall i :: 0 <= i < |f| ==> f[i] <= r.maxValue)
      && (max0 == 0.0 && |f| == 0 ==> r.maxValue == 4.0 * declaredDefault)
      && (min0 != 0.0 ==> r.minValue == min0)
      && (min0 == 0.0 && |f| > 0 ==> r.minValue in f && forall i :: 0 <= i < |f| ==> r.minValue <= f[i])
      && (min0 == 0.0 && |f| == 0 ==> r.minValue == 0.5 * declaredDefault)
      && r.incrementLarge == (if large0 == 0.0 then r.maxValue else large0)
      && r.incrementSlide == (if slide0 == 0.0 then r.maxValue / 200.0 else slide0)
  {
  }

  /** One step of resolution: a record that does not return early is the repair of
      its inherited fields, with the exponent table built from the parent's. */
  lemma ResolveUnfold(env: Env, config: Option<ConfigNode>, n: nat)
    requires ChainBounded(env.db, config, n) && !IsDefaultRecord(config)
    ensures var c := config.value;
      var source := GetScaleConfig(env, ParentName(c), n);
      var declaredDefault := ConfigParsed(c, "defaultScale", source.defaultScale, env.parsers.parseFloat);
      Resolve(env, config, n)
        == Repair(Inherit(env.parsers, c, source), declaredDefault).(exponents := env.createExponents(c, source.exponents))
  {
  }

  /** The default-scale rule of the repair: in range whenever the range is not empty;
      a free-scale default already in range is kept, one below the range becomes the
      minimum and one above it the maximum; a discrete type snaps the
      declared default to a nearest factor and then clamps that factor to the bounds,
      so it ends on the factor whenever the factor is in range, and always when its
      bounds both fell back to its factors. */
  lemma RepairDefaultScale(st: ScaleType, declaredDefault: real)
    ensures var r := Repair(st, declaredDefault);
      var f := st.scaleFactors;
      && (r.minValue <= r.maxValue ==> r.minValue <= r.defaultScale <= r.maxValue)
      && (st.isFreeScale && r.minValue <= declaredDefault <= r.maxValue ==> r.defaultScale == declaredDefault)
      && (st.isFreeScale && declaredDefault < r.minValue ==> r.defaultScale == r.minValue)
      && (st.isFreeScale && r.minValue <= declaredDefault && r.maxValue < declaredDefault ==> r.defaultScale == r.maxValue)
      && (!st.isFreeScale && |f| > 0 ==>
            exists s :: IsNearest(declaredDefault, f, s)
              && r.defaultScale == Clamp(s, r.minValue, r.maxValue)
              && (r.minValue <= s <= r.maxValue ==> r.defaultScale == s))
      && (!st.isFreeScale && |f| > 0 && st.maxValue == 0.0 && st.minValue == 0.0 ==>
            IsNearest(declaredDefault, f, r.defaultScale))
  {
    var f := st.scaleFactors;
    if !st.isFreeScale && |f| > 0 {
      var snapped := Closest(declaredDefault, f);
      assert IsNearest(declaredDefault, f, snapped);
      assert Min(f) <= snapped <= Max(f);
    }
  }

  /** With inverted bounds the clamp can leave the default outside them: a free-scale
      type with minimum 4, maximum 2 and declared default 3 gets the default 4. */
  lemma InvertedBoundsDefault(st: ScaleType)
    requires st.isFreeScale && st.minValue == 4.0 && st.maxValue == 2.0
    ensures var r := Repair(st, 3.0);
      r.minValue == 4.0 && r.maxValue == 2.0 && r.defaultScale == 4.0 && r.defaultScale > r.maxValue
  {
  }

  /** After the clamp a discrete type's default need not be one of its factors:
      factors 1 and 2, bounds 1.5 to 3 and declared default 1 give the default 1.5. */
  lemma DiscreteDefaultOffFactor(st: ScaleType)
    requires !st.isFreeScale && st.scaleFactors == [1.0, 2.0]
    requires st.minValue == 1.5 && st.maxValue == 3.0
    ensures Repair(st, 1.0).defaultScale == 1.5 && 1.5 !in st.scaleFactors
  {
    var c := Closest(1.0, [1.0, 2.0]);
    assert Abs(c - 1.0) <= Abs([1.0, 2.0][0] - 1.0);
    assert c == 1.0;
  }

  /** The default scale of a resolved record lies in `[MinValue, MaxValue]` whenever
      that range is not empty. A free-scale type keeps a declared default that is
      already in range and otherwise takes the bound it lies beyond. A discrete type ends on the clamp of a factor nearest to the
      declared default, on that factor itself when it is in range, and always when
      its bounds both fell back to its factors. */
  lemma ResolveDefaultScale(env: Env, config: Option<ConfigNode>, n: nat)
    requires ChainBounded(env.db, config, n) && !IsDefaultRecord(config)
    ensures var c := config.value;
      var p := env.parsers;
      var source := GetScaleConfig(env, ParentName(c), n);
      var declaredDefault := ConfigParsed(c, "defaultScale", source.defaultScale, p.parseFloat);
      var max0 := ConfigParsed(c, "maxScale", source.maxValue, p.parseFloat);
      var min0 := ConfigParsed(c, "minScale", source.minValue, p.parseFloat);
      var r := Resolve(env, config, n);
      var f := r.scaleFactors;
      && (r.minValue <= r.maxValue ==> r.minValue <= r.defaultScale <= r.maxValue)
      && (r.isFreeScale && r.minValue <= declaredDefault <= r.maxValue ==> r.defaultScale == declaredDefault)
      && (r.isFreeScale && declaredDefault < r.minValue ==> r.defaultScale == r.minValue)
      && (r.isFreeScale && r.minValue <= declaredDefault && r.maxValue < declaredDefault ==> r.defaultScale == r.maxValue)
      && (!r.isFreeScale && |f| > 0 ==>
            exists s :: IsNearest(declaredDefault, f, s)
              && r.defaultScale == Clamp(s, r.minValue, r.maxValue)
              && (r.minValue <= s <= r.maxValue ==> r.defaultScale == s))
      && (!r.isFreeScale && |f| > 0 && max0 == 0.0 && min0 == 0.0 ==>
            IsNearest(declaredDefault, f, r.defaultScale))
  {
    var c := config.value;
    var source := GetScaleConfig(env, ParentName(c), n);
    var declaredDefault := ConfigParsed(c, "defaultScale", source.defaultScale, env.parsers.parseFloat);
    var st := Inherit(env.parsers, c, source);
    var repaired := Repair(st, declaredDefault);
    ResolveUnfold(env, config, n);
    var r := Resolve(env, config, n);
    assert r == repaired.(exponents := env.createExponents(c, source.exponents));
    assert st.maxValue == ConfigParsed(c, "maxScale", source.maxValue, env.parsers.parseFloat);
    assert st.minValue == ConfigParsed(c, "minScale", source.minValue, env.parsers.parseFloat);
    RepairDefaultScale(st, declaredDefault);
  }

  /** Every record that does not return early gets a `"base"` attach node. */
  lemma ResolveHasBase(env: Env, config: Option<ConfigNode>, n: nat)
    requires ChainBounded(env.db, config, n) && !IsDefaultRecord(config)
    ensures "base" in Resolve(env, config, n).attachNodes
  {
    var c := config.value;
    var source := GetScaleConfig(env, ParentName(c), n);
    NodeFactorsContents(c.attachNodes, source.attachNodes, ConfigString(c, "family", "default"), env.parsers.parseFloat);
  }

  /** The built-in default's names and techs are already trimmed. */
  lemma DefaultListsTrimmed()
    ensures TrimAll(DefaultScaleNames) == DefaultScaleNames
    ensures TrimAll(["", "", "", "", ""]) == ["", "", "", "", ""]
  {
    forall i | 0 <= i < |DefaultScaleNames| ensures Trim(DefaultScaleNames[i]) == DefaultScaleNames[i] {
      TrimmedIsFixpoint(DefaultScaleNames[i]);
    }
    TrimmedIsFixpoint("");
  }

  /** Repairing the built-in default's fields with declared default scale 1.25 takes
      the bounds from the five canonical factors and keeps the default scale. */
  lemma RepairCanonical(st: ScaleType)
    requires st.scaleFactors == DefaultScaleFactors && |st.techRequired| == 5
    requires st.minValue == 0.0 && st.maxValue == 0.0 && !st.isFreeScale
    requires st.incrementLarge == 0.0 && st.incrementSlide == 0.0
    ensures Repair(st, 1.25) == st.(minValue := 0.625, maxValue := 5.0, defaultScale := 1.25,
                                    incrementLarge := 5.0, incrementSlide := 0.025)
  {
    CanonicalFactors();
  }

  /** The largest canonical factor is 5, the smallest 0.625, and 1.25 is itself one. */
  lemma CanonicalFactors()
    ensures Max(DefaultScaleFactors) == 5.0 && Min(DefaultScaleFactors) == 0.625
    ensures Closest(1.25, DefaultScaleFactors) == 1.25
  {
    CanonicalMax();
    CanonicalMin();
    var f := DefaultScaleFactors;
    var c := Closest(1.25, f);
    assert IsNearest(1.25, f, c);
    assert Abs(c - 1.25) <= Abs(f[1] - 1.25) == 0.0;
  }

  lemma CanonicalMax()
    ensures Max(DefaultScaleFactors) == 5.0
  {
    var f := DefaultScaleFactors;
    var m := Max(f);
    assert f[4] <= m;
    assert m in f;
  }

  lemma CanonicalMin()
    ensures Min(DefaultScaleFactors) == 0.625
  {
    var f := DefaultScaleFactors;
    var m := Min(f);
    assert m <= f[0];
    assert m in f;
  }

  /** A record that gives only its name, under a database with no `"default"` record,
      reproduces the built-in default: the five canonical steps, their names and
      empty techs, bounds 0.625 to 5 taken from the factors, default scale 1.25, the
      inherited `"base"` node, and increments derived from the maximum. */
  lemma NameOnlyRecord(env: Env, name: string, n: nat)
    requires name != "default" && name != "TweakScale"
    requires FindConfig(env.db, "default").None?
    ensures var config := ConfigNode([ConfigValue("name", name)], None);
      && ChainBounded(env.db, Some(config), n)
      && Resolve(env, Some(config), n) == DefaultScaleType.(
           name := Some(name), family := Some("default"),
           minValue := 0.625, maxValue := 5.0,
           incrementLarge := 5.0, incrementSlide := 0.025,
           exponents := env.createExponents(config, map[]))
  {
    var st := DefaultScaleType.(name := Some(name), family := Some("default"));
    NameOnlyResolved(env, name, n);
    RepairCanonical(st);
  }

  /** The name-only record resolves to the repaired copy of the built-in default. */
  lemma NameOnlyResolved(env: Env, name: string, n: nat)
    requires name != "default" && name != "TweakScale"
    requires FindConfig(env.db, "default").None?
    ensures var config := ConfigNode([ConfigValue("name", name)], None);
      && ChainBounded(env.db, Some(config), n)
      && Resolve(env, Some(config), n)
           == Repair(DefaultScaleType.(name := Some(name), family := Some("default")), 1.25)
                .(exponents := env.createExponents(config, map[]))
  {
    var config := ConfigNode([ConfigValue("name", name)], None);
    assert ParentName(config) == "default";
    assert ChainBounded(env.db, Some(config), n);
    GetScaleConfigUnknown(env, "default", n);
    NameOnlyInherited(env.parsers, name);
    ResolveUnfold(env, Some(config), n);
  }

  /** Inheriting into a record that gives only its name copies the built-in default,
      with that name and the family `"default"`. */
  lemma NameOnlyInherited(parsers: Parsers, name: string)
    requires name != "TweakScale"
    ensures Inherit(parsers, ConfigNode([ConfigValue("name", name)], None), DefaultScaleType)
      == DefaultScaleType.(name := Some(name), family := Some("default"))
  {
    DefaultListsTrimmed();
    NodeFactorsWithoutOverrides(None, DefaultScaleType.attachNodes, "default", parsers.parseFloat);
  }

  // ---- The tech gate over the scale steps ----

  /** Step `i` survives the gate exactly when its tech is unlocked; the survivors
      keep their order, and factors and names are filtered in lockstep. */
  lemma GatedScaleSteps(st: ScaleType, game: Option<Tech.Game>, unlocked: set<string>)
    requires |st.scaleFactors| <= |st.techRequired|
    ensures var steps := KeptFrom(st.techRequired, Tech.Gate(game, unlocked), 0, |st.scaleFactors|);
      && ScaleFactors(st, game, unlocked) == Select(st.scaleFactors, steps)
      && (forall i: nat :: i in steps <==> i < |st.scaleFactors| && Tech.IsUnlocked(game, unlocked, st.techRequired[i]))
      && (forall j, k :: 0 <= j < k < |steps| ==> steps[j] < steps[k])
      && (|st.scaleNames| == |st.scaleFactors| ==> ScaleNames(st, game, unlocked) == Select(st.scaleNames, steps))
    ensures var named := if |st.scaleNames| < |st.techRequired| then |st.scaleNames| else |st.techRequired|;
      ScaleNames(st, game, unlocked) == Select(st.scaleNames, KeptFrom(st.techRequired, Tech.Gate(game, unlocked), 0, named))
  {
    var keep := Tech.Gate(game, unlocked);
    var steps := KeptFrom(st.techRequired, keep, 0, |st.scaleFactors|);
    assert st.scaleFactors[0..] == st.scaleFactors && st.techRequired[0..] == st.techRequired;
    assert st.scaleNames[0..] == st.scaleNames;
    ZipFilterSelects(st.scaleFactors, st.techRequired, keep, 0);
    ZipFilterSelects(st.scaleNames, st.techRequired, keep, 0);
    forall i: nat ensures i in steps <==> i < |st.scaleFactors| && Tech.IsUnlocked(game, unlocked, st.techRequired[i]) {
      KeptFromMembers(st.techRequired, keep, 0, |st.scaleFactors|, i);
    }
    KeptFromIncreasing(st.techRequired, keep, 0, |st.scaleFactors|);
  }

  /** Outside a research game nothing is filtered out: every factor is offered, and
      every name up to the number of techs, so names beyond the tech list (which a
      record can inherit) are cut off. */
  lemma UngatedScaleSteps(st: ScaleType, game: Option<Tech.Game>, unlocked: set<string>)
    requires !Tech.Gated(game)
    requires |st.scaleFactors| <= |st.techRequired|
    ensures ScaleFactors(st, game, unlocked) == AllScaleFactors(st)
    ensures ScaleNames(st, game, unlocked)
      == if |st.scaleNames| <= |st.techRequired| then st.scaleNames else st.scaleNames[..|st.techRequired|]
    ensures |st.scaleNames| <= |st.techRequired| ==> ScaleNames(st, game, unlocked) == st.scaleNames
  {
    ZipFilterAllKept(st.scaleFactors, st.techRequired, Tech.Gate(game, unlocked));
    ZipFilterAllKept(st.scaleNames, st.techRequired, Tech.Gate(game, unlocked));
  }

  /** The record `Big`: two factors 1 and 2, named by `scaleNames`, the second
      behind the tech `tech` by `techRequired`. While that tech is locked only the
      first step is offered, and `AllScaleFactors` is the record's own two factors. */
  lemma BigRecord(env: Env, n: nat, game: Option<Tech.Game>, unlocked: set<string>, a: string, b: string, tech: string)
    requires env.parsers.parseFloats("1, 2") == Some([1.0, 2.0])
    requires env.parsers.parseStrings("A, B") == Some([a, b])
    requires env.parsers.parseStrings(", lockedTech") == Some(["", tech])
    requires IsTrimmed(a) && IsTrimmed(b) && IsTrimmed(tech)
    requires Tech.Gated(game) && tech != "" && tech !in unlocked
    requires ChainBounded(env.db, Some(BigConfig()), n)
    ensures var r := Resolve(env, Some(BigConfig()), n);
      && ScaleFactors(r, game, unlocked) == [1.0]
      && ScaleNames(r, game, unlocked) == [a]
      && AllScaleFactors(r) == [1.0, 2.0]
  {
    BigFactorsAndNames(env, n, a, b);
    BigTech(env, n, tech);
    BigSteps(Resolve(env, Some(BigConfig()), n), game, unlocked);
  }

  /** The `Big` record's factors and names are its own, trimmed. */
  lemma BigFactorsAndNames(env: Env, n: nat, a: string, b: string)
    requires env.parsers.parseFloats("1, 2") == Some([1.0, 2.0])
    requires env.parsers.parseStrings("A, B") == Some([a, b])
    requires IsTrimmed(a) && IsTrimmed(b)
    requires ChainBounded(env.db, Some(BigConfig()), n)
    ensures Resolve(env, Some(BigConfig()), n).scaleFactors == [1.0, 2.0]
    ensures Resolve(env, Some(BigConfig()), n).scaleNames == [a, b]
  {
    assert [a, b][0] == a && [a, b][1] == b;
    TrimAllTrimmed([a, b]);
    BigLookups();
    ResolveInherits(env, Some(BigConfig()), n);
  }

  /** The `Big` record's tech list is its own two entries. */
  lemma BigTech(env: Env, n: nat, tech: string)
    requires env.parsers.parseFloats("1, 2") == Some([1.0, 2.0])
    requires env.parsers.parseStrings(", lockedTech") == Some(["", tech])
    requires IsTrimmed(tech)
    requires ChainBounded(env.db, Some(BigConfig()), n)
    ensures Resolve(env, Some(BigConfig()), n).techRequired == ["", tech]
  {
    assert IsTrimmed("");
    assert ["", tech][0] == "" && ["", tech][1] == tech;
    TrimAllTrimmed(["", tech]);
    BigLookups();
    ResolveInherits(env, Some(BigConfig()), n);
    ResolveTechRequired(env, Some(BigConfig()), n);
  }

  /** The gate over the `Big` record's two steps. */
  lemma BigSteps(st: ScaleType, game: Option<Tech.Game>, unlocked: set<string>)
    requires |st.scaleFactors| == 2 && |st.scaleNames| == 2 && |st.techRequired| == 2
    requires st.techRequired[0] == "" && Tech.Gated(game) && st.techRequired[1] != "" && st.techRequired[1] !in unlocked
    ensures ScaleFactors(st, game, unlocked) == [st.scaleFactors[0]]
    ensures ScaleNames(st, game, unlocked) == [st.scaleNames[0]]
  {
    var keep := Tech.Gate(game, unlocked);
    var tail := st.techRequired[1..];
    assert keep("") && !keep(st.techRequired[1]);
    assert ZipFilter(st.scaleFactors[1..], tail, keep) == [] + ZipFilter(st.scaleFactors[1..][1..], tail[1..], keep);
    assert ZipFilter(st.scaleNames[1..], tail, keep) == [] + ZipFilter(st.scaleNames[1..][1..], tail[1..], keep);
  }

  /** The record `Big` of the example above. */
  function BigConfig(): ConfigNode {
    ConfigNode([ConfigValue("name", "Big"), ConfigValue("type", "default"),
      ConfigValue("scaleFactors", "1, 2"), ConfigValue("scaleNames", "A, B"),
      ConfigValue("techRequired", ", lockedTech")], None)
  }

  /** The `Big` record's own values for the looked-up keys. */
  lemma BigLookups()
    ensures GetValue(BigConfig().values, "scaleFactors") == Some("1, 2")
    ensures GetValue(BigConfig().values, "scaleNames") == Some("A, B")
    ensures GetValue(BigConfig().values, "techRequired") == Some(", lockedTech")
  {
    var v := BigConfig().values;
    assert v[0].name != "scaleFactors" && v[1].name != "scaleFactors" && v[2] == ConfigValue("scaleFactors", "1, 2");
    assert v[0].name != "scaleNames" && v[1].name != "scaleNames" && v[2].name != "scaleNames";
    assert v[3] == ConfigValue("scaleNames", "A, B");
    assert v[0].name != "techRequired" && v[1].name != "techRequired" && v[2].name != "techRequired";
    assert v[3].name != "techRequired" && v[4] == ConfigValue("techRequired", ", lockedTech");
  }

  // ---- Equality ----

  /** Name equality is an equivalence on possibly null scale types. */
  lemma SameScaleTypeIsEquivalence(a: Option<ScaleType>, b: Option<ScaleType>, c: Option<ScaleType>)
    ensures SameScaleType(a, a)
    ensures SameScaleType(a, b) == SameScaleType(b, a)
    ensures SameScaleType(a, b) && SameScaleType(b, c) ==> SameScaleType(a, c)
    ensures a.Some? && b.Some? ==> (SameScaleType(a, b) <==> a.value.name == b.value.name)
  {
  }
}
