/** What the dry-cost pass guarantees: the value it writes, when it writes one, that
    the two waits and the pass are determined by the catalog, and the worked
    examples of a part and of a batch with one failing part. */
module PrefabDryCostProperties {
  import opened Wrappers
  import opened PrefabDryCost

  // ---- One part ----

  /** A part is written exactly when it has a prefab, a module list, a TweakScale
      module that really is one, and a definition for every resource. */
  lemma WrittenExactly(p: AvailablePart)
    ensures Plan(p).Written? <==>
      && p.partPrefab.Some? && p.partPrefab.value.modules.Some?
      && HasModule(p.partPrefab.value.modules.value, "TweakScale")
      && ModuleNamed(p.partPrefab.value.modules.value, "TweakScale").value.isTweakScale
      && forall i :: 0 <= i < |p.partPrefab.value.resources| ==> p.partPrefab.value.resources[i].unitCost.Some?
  {
  }

  /** The written dry cost is the cost less the resource value, or 0 when that is
      negative; the written module is the part's TweakScale module, and the
      fuel-switch flag says whether an `FSfuelSwitch` module is present. */
  lemma WrittenValues(p: AvailablePart)
    requires Plan(p).Written?
    ensures var mods := p.partPrefab.value.modules.value;
      var value := ResourceValue(p.partPrefab.value.resources);
      && value.Some?
      && Plan(p).dryCost >= 0.0
      && (p.cost >= value.value ==> Plan(p).dryCost == p.cost - value.value)
      && (p.cost < value.value ==> Plan(p).dryCost == 0.0)
      && Plan(p).target.moduleName == "TweakScale"
      && Some(Plan(p).target) == ModuleNamed(mods, "TweakScale")
      && Plan(p).fuelSwitch == HasModule(mods, "FSfuelSwitch")
  {
    var mods := p.partPrefab.value.modules.value;
    var m := ModuleNamed(mods, "TweakScale").value;
    assert exists i :: 0 <= i < |mods| && mods[i] == m && m.moduleName == "TweakScale";
  }

  /** A part without a TweakScale module is skipped and writes nothing. */
  lemma UnscaledPartSkipped(p: AvailablePart)
    requires p.partPrefab.Some? && p.partPrefab.value.modules.Some?
    requires forall i :: 0 <= i < |p.partPrefab.value.modules.value| ==>
      p.partPrefab.value.modules.value[i].moduleName != "TweakScale"
    ensures Plan(p) == NotScaled && Target(p) == {}
  {
  }

  /** The resource value of two resource lists one after the other is the sum of
      their values: the order of the fold does not matter. */
  lemma {:induction false} ResourceValueAppend(a: seq<Resource>, b: seq<Resource>)
    requires ResourceValue(a).Some? && ResourceValue(b).Some?
    ensures ResourceValue(a + b) == Some(ResourceValue(a).value + ResourceValue(b).value)
    decreases |b|
  {
    if |b| == 0 {
      assert a + b == a;
    } else {
      var front, last := b[..|b| - 1], b[|b| - 1];
      assert forall i :: 0 <= i < |front| ==> front[i] == b[i];
      assert ResourceValue(front).Some? && last.unitCost.Some?;
      ResourceValueAppend(a, front);
      assert (a + b)[..|a + b| - 1] == a + front;
      assert (a + b)[|a + b| - 1] == last;
      assert ResourceValue(b).value == ResourceValue(front).value + last.maxAmount * last.unitCost.value;
      assert ResourceValue(a + b).value == ResourceValue(a + front).value + last.maxAmount * last.unitCost.value;
    }
  }

  /** One resource is worth its maximum amount times its unit cost. */
  lemma ResourceValueOne(r: Resource)
    requires r.unitCost.Some?
    ensures ResourceValue([r]) == Some(r.maxAmount * r.unitCost.value)
  {
    var rs := [r];
    assert rs[..|rs| - 1] == [] && rs[|rs| - 1] == r;
    assert ResourceValue(rs[..|rs| - 1]) == Some(0.0);
    assert ResourceValue(rs).Some?;
    assert ResourceValue(rs).value == 0.0 + rs[|rs| - 1].maxAmount * rs[|rs| - 1].unitCost.value;
    assert ResourceValue(rs).value == r.maxAmount * r.unitCost.value;
    assert rs == [r];
  }

  /** The tank part: cost 100 and 10 units at 5 each give a dry cost of 50; cost 10
      with the same resource would be -40 and is written as 0. */
  lemma TankExamples(m: PartModule)
    requires m.moduleName == "TweakScale" && m.isTweakScale
    ensures Plan(AvailablePart("tank", 100.0, Some(Prefab(Some([m]), [Resource(10.0, Some(5.0))]))))
      == Written(m, 50.0, false)
    ensures Plan(AvailablePart("tank", 10.0, Some(Prefab(Some([m]), [Resource(10.0, Some(5.0))]))))
      == Written(m, 0.0, false)
  {
    ResourceValueOne(Resource(10.0, Some(5.0)));
    OnlyModule(m);
  }

  /** A list holding only the TweakScale module finds it and no fuel switch. */
  lemma OnlyModule(m: PartModule)
    requires m.moduleName == "TweakScale"
    ensures ModuleNamed([m], "TweakScale") == Some(m)
    ensures HasModule([m], "TweakScale") && !HasModule([m], "FSfuelSwitch")
  {
    assert [m][0] == m;
  }

  // ---- The waits and the pass are determined by the catalog ----

  /** The catalog wait has exactly one possible end. */
  lemma CatalogWaitUnique(catalog: nat -> Option<seq<AvailablePart>>, a: nat, b: nat)
    requires IsCatalogWait(catalog, a) && IsCatalogWait(catalog, b)
    ensures a == b
  {
  }

  /** The stability wait has exactly one possible end. */
  lemma StabilityWaitUnique(catalog: nat -> Option<seq<AvailablePart>>, start: nat, a: Stability, b: Stability)
    requires IsStabilityWait(catalog, start, a) && IsStabilityWait(catalog, start, b)
    ensures a == b
  {
  }

  /** The pass has exactly one possible outcome for a given list of parts. */
  lemma PassUnique(parts: seq<AvailablePart>, a: seq<PartResult>, b: seq<PartResult>)
    requires IsPass(parts, a) && IsPass(parts, b)
    ensures a == b
  {
  }

  /** The pass visits every part exactly when no part has a null prefab. */
  lemma PassCompleteExactly(parts: seq<AvailablePart>, results: seq<PartResult>)
    requires IsPass(parts, results)
    ensures |results| == |parts| <==> forall i :: 0 <= i < |parts| ==> parts[i].partPrefab.Some?
  {
  }

  /** A catalog that is there from the first tick and never changes ends the first
      wait at once and the second after one yield. */
  lemma SteadyCatalog(parts: seq<AvailablePart>)
    ensures IsCatalogWait(_ => Some(parts), 0)
    ensures IsStabilityWait(_ => Some(parts), 0, Stable(1))
  {
    var catalog: nat -> Option<seq<AvailablePart>> := _ => Some(parts);
    assert !SameCount(catalog, 1) ==> false;
  }

  // ---- A batch with one failing part ----

  /** Three tanks whose middle one has a resource without a definition: its cost
      computation throws, and the other two still get their dry costs. */
  function Batch(m1: PartModule, m2: PartModule, m3: PartModule): seq<AvailablePart> {
    [ AvailablePart("first", 100.0, Some(Prefab(Some([m1]), [Resource(10.0, Some(5.0))]))),
      AvailablePart("second", 100.0, Some(Prefab(Some([m2]), [Resource(10.0, None)]))),
      AvailablePart("third", 10.0, Some(Prefab(Some([m3]), [Resource(10.0, Some(5.0))]))) ]
  }

  /** The batch's visits: written, failed, written. */
  lemma BatchPlans(m1: PartModule, m2: PartModule, m3: PartModule)
    requires m1.moduleName == "TweakScale" && m1.isTweakScale
    requires m2.moduleName == "TweakScale" && m2.isTweakScale
    requires m3.moduleName == "TweakScale" && m3.isTweakScale
    ensures var parts := Batch(m1, m2, m3);
      && Plan(parts[0]) == Written(m1, 50.0, false)
      && Plan(parts[1]) == CostFailed
      && Plan(parts[2]) == Written(m3, 0.0, false)
  {
    TankExamples(m1);
    TankExamples(m3);
    OnlyModule(m2);
    assert [Resource(10.0, None)][0].unitCost.None?;
  }

  /** Running the whole coroutine on that batch, arriving at once and never
      changing: both healthy tanks get their dry cost, the failing one keeps the
      value 7 its module held before the run, and the flag ends up set. */
  method BatchScenario() returns (first: real, second: real, third: real, concluded: bool)
    ensures first == 50.0 && second == 7.0 && third == 0.0 && concluded
  {
    var m1 := new PartModule("TweakScale", true, false);
    var m2 := new PartModule("TweakScale", true, false);
    var m3 := new PartModule("TweakScale", true, false);
    m2.dryCost := 7.0;
    var parts := Batch(m1, m2, m3);
    BatchPlans(m1, m2, m3);
    assert Target(parts[0]) == {m1} && Target(parts[1]) == {} && Target(parts[2]) == {m3};
    assert DistinctTargets(parts) && Covers(parts, {m1, m3});
    var writer := new PrefabDryCostWriter();
    var catalog: nat -> Option<seq<AvailablePart>> := _ => Some(parts);
    SteadyCatalog(parts);
    var listed, settled, results := writer.WriteDryCost(catalog, {m1, m3});
    CatalogWaitUnique(catalog, listed, 0);
    StabilityWaitUnique(catalog, 0, settled, Stable(1));
    assert PassList(catalog, settled) == Some(parts);
    assert |results| == 3 by {
      PassCompleteExactly(parts, results);
    }
    assert results[0] == Written(m1, 50.0, false) && results[2] == Written(m3, 0.0, false);
    assert m2 !in WrittenModules(results);
    first, second, third, concluded := m1.dryCost, m2.dryCost, m3.dryCost, writer.isConcluded;
  }
}
