/** The start-up pass of `PrefabDryCostWriter`: wait for the part catalog to
    appear, wait for its count to settle, then visit every part once and write the
    dry cost (cost without the value of its resources) onto its TweakScale module.

    Frames are ticks: tick `t` is what the catalog looks like after `t` yields
    since the pass started, given as `catalog(t)` (`None` while the list is null). */
module PrefabDryCost {
  import opened Wrappers

  /** `WAIT_ROUNDS`: each polling loop counts down from this value to 0. */
  const WaitRounds: nat := 120

  /** `int.MinValue`, the count the stability loop starts from. */
  const IntMin: int := -0x8000_0000

  /** A part module. Its name and its runtime class are fixed; only a TweakScale
      module's two derived fields are written by the pass. */
  class PartModule {
    const moduleName: string
    /** Whether `Modules["TweakScale"] as TweakScale` yields this module (and not null). */
    const isTweakScale: bool
    var dryCost: real
    var ignoreResourcesForCost: bool

    constructor(moduleName: string, isTweakScale: bool, ignoreResourcesForCost: bool)
      ensures this.moduleName == moduleName && this.isTweakScale == isTweakScale
      ensures dryCost == 0.0 && this.ignoreResourcesForCost == ignoreResourcesForCost
    {
      this.moduleName := moduleName;
      this.isTweakScale := isTweakScale;
      dryCost := 0.0;
      this.ignoreResourcesForCost := ignoreResourcesForCost;
    }
  }

  /** A resource of a prefab; `unitCost` is `None` when its definition (`info`) is
      missing, so reading the unit cost throws. */
  datatype Resource = Resource(maxAmount: real, unitCost: Option<real>)

  /** A part prefab: the module list (`None`: null) and the resources. */
  datatype Prefab = Prefab(modules: Option<seq<PartModule>>, resources: seq<Resource>)

  /** A catalog entry: its name, its cost and its prefab (`None`: null). */
  datatype AvailablePart = AvailablePart(name: string, cost: real, partPrefab: Option<Prefab>)

  // ---- Module lookup ----

  /** `Modules.Contains(name)`. */
  predicate HasModule(mods: seq<PartModule>, name: string) {
    exists i :: 0 <= i < |mods| && mods[i].moduleName == name
  }

  /** `Modules[name]`: the first module of that name. */
  function ModuleNamed(mods: seq<PartModule>, name: string): (r: Option<PartModule>)
    ensures r.Some? <==> HasModule(mods, name)
    ensures r.Some? ==> exists i :: 0 <= i < |mods| && mods[i] == r.value && r.value.moduleName == name
                                     && forall j :: 0 <= j < i ==> mods[j].moduleName != name
  {
    if |mods| == 0 then None
    else if mods[0].moduleName == name then Some(mods[0])
    else
      var r := ModuleNamed(mods[1..], name);
      assert forall i :: 0 <= i < |mods| - 1 ==> mods[1..][i] == mods[i + 1];
      if r.Some? then
        ghost var i :| 0 <= i < |mods| - 1 && mods[1..][i] == r.value && r.value.moduleName == name
                       && forall j :: 0 <= j < i ==> mods[1..][j].moduleName != name;
        assert mods[i + 1] == r.value;
        r
      else r
  }

  // ---- The dry cost of one part ----

  /** `Resources.Aggregate(0.0, (a, b) => a + b.maxAmount * b.info.unitCost)`, left to
      right; `None` when some resource has no definition. */
  function ResourceValue(rs: seq<Resource>): (r: Option<real>)
    ensures r.Some? <==> forall i :: 0 <= i < |rs| ==> rs[i].unitCost.Some?
  {
    if |rs| == 0 then Some(0.0)
    else
      var front := ResourceValue(rs[..|rs| - 1]);
      var last := rs[|rs| - 1];
      assert forall i :: 0 <= i < |rs| - 1 ==> rs[..|rs| - 1][i] == rs[i];
      if front.None? || last.unitCost.None? then None
      else Some(front.value + last.maxAmount * last.unitCost.value)
  }

  /** A negative dry cost is corrected to 0. */
  function Clamped(raw: real): (r: real)
    ensures r >= 0.0
    ensures raw >= 0.0 ==> r == raw
    ensures raw < 0.0 ==> r == 0.0
  {
    if raw < 0.0 then 0.0 else raw
  }

  /** What visiting one part does. */
  datatype PartResult =
    | NullPrefab                  // the wait condition dereferences the null prefab: the pass stops
    | ModulesFailed               // `Modules.Contains` threw: the part is skipped
    | NotScaled                   // no TweakScale module: the part is skipped
    | CostFailed                  // the cost computation threw: nothing is written
    | Written(target: PartModule, dryCost: real, fuelSwitch: bool)

  /** The outcome of visiting part `p`: for a TweakScale part whose resources all have
      a definition, the module to write, the clamped dry cost, and whether an
      `FSfuelSwitch` module is present. */
  function Plan(p: AvailablePart): PartResult {
    match p.partPrefab
    case None => NullPrefab
    case Some(prefab) =>
      match prefab.modules
      case None => ModulesFailed
      case Some(mods) =>
        if !HasModule(mods, "TweakScale") then NotScaled
        else
          var m := ModuleNamed(mods, "TweakScale").value;
          if !m.isTweakScale then CostFailed
          else
            match ResourceValue(prefab.resources)
            case None => CostFailed
            case Some(value) => Written(m, Clamped(p.cost - value), HasModule(mods, "FSfuelSwitch"))
  }

  /** The module a visit of `p` writes, as a set (empty when it writes none). */
  function Target(p: AvailablePart): set<PartModule> {
    if Plan(p).Written? then {Plan(p).target} else {}
  }

  /** Every module the parts would write is in `footprint`. */
  predicate Covers(parts: seq<AvailablePart>, footprint: set<PartModule>) {
    forall i :: 0 <= i < |parts| ==> Target(parts[i]) <= footprint
  }

  /** No two parts write the same module. */
  predicate DistinctTargets(parts: seq<AvailablePart>) {
    forall i, j :: 0 <= i < j < |parts| ==> Target(parts[i]) !! Target(parts[j])
  }

  /** The body of the `foreach` for one part, with its two `try` blocks. */
  method WritePart(p: AvailablePart) returns (r: PartResult)
    modifies Target(p)
    ensures r == Plan(p)
    ensures r.Written? ==> r.target.dryCost == r.dryCost
    ensures r.Written? ==> r.target.ignoreResourcesForCost == (old(r.target.ignoreResourcesForCost) || r.fuelSwitch)
  {
    if p.partPrefab.None? {
      return NullPrefab;
    }
    var prefab := p.partPrefab.value;
    if prefab.modules.None? {
      return ModulesFailed;
    }
    var mods := prefab.modules.value;
    if !HasModule(mods, "TweakScale") {
      return NotScaled;
    }
    var m := ModuleNamed(mods, "TweakScale").value;
    if !m.isTweakScale {
      return CostFailed;
    }
    var value := ResourceValue(prefab.resources);
    if value.None? {
      return CostFailed;
    }
    m.dryCost := p.cost - value.value;
    var fuelSwitch := HasModule(mods, "FSfuelSwitch");
    m.ignoreResourcesForCost := m.ignoreResourcesForCost || fuelSwitch;
    if m.dryCost < 0.0 {
      m.dryCost := 0.0;
    }
    r := Written(m, m.dryCost, fuelSwitch);
  }

  // ---- The two polling loops ----

  /** `t` is where the catalog wait ends: the first tick whose list is not null,
      or 121 yields when it stays null through the last check at tick 120. */
  predicate IsCatalogWait(catalog: nat -> Option<seq<AvailablePart>>, t: nat) {
    && t <= WaitRounds + 1
    && (forall k: nat :: k < t ==> catalog(k).None?)
    && (t <= WaitRounds ==> catalog(t).Some?)
  }

  /** The first polling loop (`for (i = WAIT_ROUNDS; i >= 0 && null == LoadedPartsList; --i)`). */
  method WaitForCatalog(catalog: nat -> Option<seq<AvailablePart>>) returns (t: nat)
    ensures IsCatalogWait(catalog, t)
  {
    t := 0;
    var i: int := WaitRounds;
    while i >= 0 && catalog(t).None?
      invariant -1 <= i <= WaitRounds && t == WaitRounds - i
      invariant forall k: nat :: k < t ==> catalog(k).None?
    {
      t := t + 1;
      i := i - 1;
    }
  }

  /** How the stability loop ends, with the tick it ends at. */
  datatype Stability =
    | Stable(tick: nat)           // the count equals the previous tick's count
    | TimedOut(tick: nat)         // 121 yields without two equal counts in a row
    | ListMissing(tick: nat)      // the list is null when its count is read: the pass stops

  /** The catalog list after `k` ticks holds as many parts as after `k - 1`. */
  predicate SameCount(catalog: nat -> Option<seq<AvailablePart>>, k: nat)
    requires k > 0 && catalog(k - 1).Some? && catalog(k).Some?
  {
    |catalog(k).value| == |catalog(k - 1).value|
  }

  /** `s` is where the stability loop started at tick `start` ends. Every tick before
      it had a list; no two consecutive ticks before it had equal counts; a
      `Stable` end is never the first check, since no count equals `int.MinValue`. */
  predicate IsStabilityWait(catalog: nat -> Option<seq<AvailablePart>>, start: nat, s: Stability) {
    var t := s.tick;
    && start <= t <= start + WaitRounds + 1
    && (forall k: nat :: start <= k < t ==> catalog(k).Some?)
    && (forall k: nat :: start < k < t ==> !SameCount(catalog, k))
    && match s
       case Stable(_) => start < t <= start + WaitRounds && catalog(t).Some? && SameCount(catalog, t)
       case TimedOut(_) => t == start + WaitRounds + 1
       case ListMissing(_) => t <= start + WaitRounds && catalog(t).None?
  }

  /** The second polling loop, that waits for `LoadedPartsList.Count` to settle. */
  method WaitForStableCount(catalog: nat -> Option<seq<AvailablePart>>, start: nat) returns (s: Stability)
    ensures IsStabilityWait(catalog, start, s)
  {
    var lastCount: int := IntMin;
    var tick := start;
    var i: int := WaitRounds;
    while i >= 0
      invariant -1 <= i <= WaitRounds && tick == start + WaitRounds - i
      invariant forall k: nat :: start <= k < tick ==> catalog(k).Some?
      invariant forall k: nat :: start < k < tick ==> !SameCount(catalog, k)
      invariant tick == start ==> lastCount == IntMin
      invariant tick > start ==> lastCount == |catalog(tick - 1).value|
    {
      if catalog(tick).None? {
        return ListMissing(tick);
      }
      if lastCount == |catalog(tick).value| {
        return Stable(tick);
      }
      lastCount := |catalog(tick).value|;
      tick := tick + 1;
      i := i - 1;
    }
    s := TimedOut(tick);
  }

  // ---- The pass over the parts ----

  /** `results` are the visits of the first `|results|` parts, in order; the pass
      ended early exactly when the next part has a null prefab. */
  predicate IsPass(parts: seq<AvailablePart>, results: seq<PartResult>) {
    && |results| <= |parts|
    && (forall j :: 0 <= j < |results| ==> results[j] == Plan(parts[j]) && parts[j].partPrefab.Some?)
    && (|results| < |parts| ==> parts[|results|].partPrefab.None?)
  }

  /** The modules written by a pass. */
  function WrittenModules(results: seq<PartResult>): set<PartModule> {
    set j | 0 <= j < |results| && results[j].Written? :: results[j].target
  }

  /** The `foreach` over the catalog list. A part's failure only skips that part;
      each written module holds its own part's values, and no other module changes. */
  method DryCostPass(parts: seq<AvailablePart>, ghost footprint: set<PartModule>) returns (results: seq<PartResult>)
    requires Covers(parts, footprint) && DistinctTargets(parts)
    modifies footprint
    ensures IsPass(parts, results)
    ensures forall j :: 0 <= j < |results| && results[j].Written? ==> results[j].target in footprint
    ensures forall j :: 0 <= j < |results| && results[j].Written? ==>
      && results[j].target.dryCost == results[j].dryCost
      && results[j].target.ignoreResourcesForCost == (old(results[j].target.ignoreResourcesForCost) || results[j].fuelSwitch)
    ensures forall m :: m in footprint && m !in WrittenModules(results) ==>
      m.dryCost == old(m.dryCost) && m.ignoreResourcesForCost == old(m.ignoreResourcesForCost)
  {
    results := [];
    var i := 0;
    while i < |parts|
      invariant 0 <= i <= |parts| && |results| == i
      invariant forall j :: 0 <= j < i ==> results[j] == Plan(parts[j]) && parts[j].partPrefab.Some?
      invariant forall j :: 0 <= j < i && results[j].Written? ==>
        && results[j].target.dryCost == results[j].dryCost
        && results[j].target.ignoreResourcesForCost == (old(results[j].target.ignoreResourcesForCost) || results[j].fuelSwitch)
      invariant forall m :: m in footprint && m !in WrittenModules(results) ==>
        m.dryCost == old(m.dryCost) && m.ignoreResourcesForCost == old(m.ignoreResourcesForCost)
    {
      var p := parts[i];
      if p.partPrefab.None? {
        return;
      }
      assert Target(p) <= footprint;
      forall j | 0 <= j < i ensures Target(parts[j]) !! Target(p) {
      }
      var r := WritePart(p);
      assert r.Written? ==> r.target !in WrittenModules(results) by {
        if r.Written? {
          forall j | 0 <= j < i && results[j].Written? ensures results[j].target != r.target {
            assert results[j].target in Target(parts[j]);
          }
        }
      }
      results := results + [r];
      i := i + 1;
    }
  }

  // ---- The coroutine ----

  /** Where the `foreach` starts: the list at the tick the stability loop ended, or
      nothing when it ended on a null list. */
  function PassList(catalog: nat -> Option<seq<AvailablePart>>, s: Stability): Option<seq<AvailablePart>> {
    if s.ListMissing? then None else catalog(s.tick)
  }

  /** The static `PrefabDryCostWriter.isConcluded` flag, and the coroutine that sets it. */
  class PrefabDryCostWriter {
    var isConcluded: bool

    constructor()
      ensures !isConcluded
    {
      isConcluded := false;
    }

    /** `WriteDryCost`: the two waits, then the pass over the list it then finds.
        The flag is true at the end exactly when the pass visited every part; a
        null list or a null prefab stops the coroutine with the flag false. */
    method WriteDryCost(catalog: nat -> Option<seq<AvailablePart>>, ghost footprint: set<PartModule>)
      returns (listed: nat, settled: Stability, results: seq<PartResult>)
      requires forall t: nat :: catalog(t).Some? ==> Covers(catalog(t).value, footprint) && DistinctTargets(catalog(t).value)
      modifies this, footprint
      ensures IsCatalogWait(catalog, listed)
      ensures IsStabilityWait(catalog, listed, settled)
      ensures PassList(catalog, settled).None? ==> results == [] && !isConcluded
      ensures PassList(catalog, settled).Some? ==>
        var parts := PassList(catalog, settled).value;
        IsPass(parts, results) && (isConcluded <==> |results| == |parts|)
      ensures forall j :: 0 <= j < |results| && results[j].Written? ==> results[j].target in footprint
      ensures forall j :: 0 <= j < |results| && results[j].Written? ==>
        && results[j].target.dryCost == results[j].dryCost
        && results[j].target.ignoreResourcesForCost == (old(results[j].target.ignoreResourcesForCost) || results[j].fuelSwitch)
      ensures forall m :: m in footprint && m !in WrittenModules(results) ==>
        m.dryCost == old(m.dryCost) && m.ignoreResourcesForCost == old(m.ignoreResourcesForCost)
    {
      isConcluded := false;
      listed := WaitForCatalog(catalog);
      settled := WaitForStableCount(catalog, listed);
      results := [];
      var list := PassList(catalog, settled);
      if list.None? {
        return;
      }
      results := DryCostPass(list.value, footprint);
      if |results| < |list.value| {
        return;
      }
      isConcluded := true;
    }
  }
}
