# TweakScale scale types and dry-cost pass, in Dafny

This project models two parts of the TweakScale add-on for Kerbal Space Program.

**Scale types (`ScaleType.cs`).** A SCALETYPE record describes the sizes a part
may take:

- **Fields.** The record has discrete scale factors with display names, a
  required tech per factor, minimum, maximum and default scale, UI increments,
  attach-node scales, and an exponent table.
- **Inheritance.** A record names its parent in `type`. Every value the record
  leaves out is taken from the resolved parent, or from the built-in default.
- **Repair rules.** After inheritance, a fixed chain of rules:
  - pads a short tech list;
  - falls back from zero bounds to the factors;
  - snaps the default scale to a factor and clamps it;
  - fills in zero increments.
- **Tech gate.** The `Tech` class holds the unlocked tech ids of the current save.
  In a research game, only the scale steps whose tech is unlocked are offered.

**Dry-cost pass (`Source/Scale/PrefabDryCostWriter.cs`).** At start-up a
coroutine runs these steps:

1. It waits for the part catalog to appear.
2. It waits for the catalog's count to settle.
3. It visits every part once and writes `DryCost` onto the part's TweakScale
   module. `DryCost` is the cost less the resources' value, and it is never
   negative. The same visit sets `ignoreResourcesForCost` when an
   `FSfuelSwitch` module is present.
4. It raises the `isConcluded` flag once every part has been visited.

A failure on one part skips that part only.

Layout:

| file | module | content |
|---|---|---|
| `Wrappers.dfy` | `Wrappers` | `Option` |
| `Text.dfy` | `Text` | `String.Trim`, `String.Split` on one separator, and `Join` as its inverse |
| `Tools.dfy` | `Tools` | `Max`, `Min`, `Closest`, `Clamp`, the `Repeat`/`Take` padding, `ZipFilter` |
| `Config.dfy` | `Config` | parsed config records, `Tools.ConfigValue`, the SCALETYPE database lookup |
| `Tech.dfy` | `Tech` | the tech gate; class `TechRegistry` with `Reload` |
| `ScaleType.dfy` | `ScaleTypes` | `NodeInfo`, `GetNodeFactors` (loop method and its specification), `ScaleType(ConfigNode)` as `Inherit` + `Repair` + `Resolve`, `GetScaleConfig`, the gated getters, name equality, the memoised `AllScaleTypes` |
| `ScaleTypeProperties.dfy` | `ScaleTypeProperties` | lemmas about scale types |
| `PrefabDryCostWriter.dfy` | `PrefabDryCost` | the two polling loops, the per-part body, the pass, and class `PrefabDryCostWriter` holding `isConcluded` |
| `PrefabDryCostProperties.dfy` | `PrefabDryCostProperties` | lemmas about the pass, and the whole coroutine, proved on a three-part batch |

The constructor `ScaleType(ConfigNode)` builds an immutable value, so it is modelled as
functions:

- **Inherit.** Lines 200-218 of the constructor: each field is the record's own
  value or the parent's.
- **Repair.** Lines 225-267: the repair rules.
- **Resolve.** The whole constructor, including the early return.

`Resolve` and `GetScaleConfig` call each other, as the C# constructor and
`GetScaleConfig` do. The C# code has no cycle check. Termination is therefore a
ghost bound `n` on the number of parent links (`ChainBounded`). The lemma
`ResolveDepthIrrelevant` shows the result does not depend on it.

For the dry-cost pass, the catalog is a function from tick to list; a tick is one
`yield return null`. The value `catalog(t)` is what `PartLoader.LoadedPartsList` holds
after `t` yields; `None` means the list is null. Part modules are objects, and the
pass writes their fields in place.

Behaviour of the C# code that the model keeps, although it may be unexpected:

- **No cycle detection.** A record whose own `type` finds itself recurses for ever
  (`SelfParentUnbounded`), and so do two records that name each other
  (`TwoCycleUnbounded`).
- **No memo in `GetScaleConfig`.** Each call resolves the parent afresh. Only
  `AllScaleTypes` is kept.
- **`AllScaleFactors` is the record's own factor list.** It is not the five
  canonical factors.
- **The family is not inherited.** It defaults to `"default"`.
- **`IncrementSmall` is never repaired.**
- **The early return gives the field initialisers.** This happens for a null
  record or one named `"default"`. The result has no name, no family, and no
  attach nodes at all, not even `"base"`. The built-in default from the private
  constructor has a `"base"` node of family `""` and scale 1. It keeps minimum
  and maximum 0 and is never repaired.
- **`"unnamed scaletype"` is never used.** A record without a name takes the
  early return (`ResolveName`).
- **Before any `Reload`, a research game unlocks only `""`.** The unlocked set
  starts empty (`InitialGateLocksAll`).
- **A `Reload` that finds no ResearchAndDevelopment scenario keeps the old set.**
  It does not clear it (`Tech.TechRegistry.Reload`).
- **With inverted bounds the default can lie outside them.** When the minimum is
  above the maximum, the clamp returns the minimum: a free-scale type with
  minimum 4, maximum 2 and default 3 gets the default 4 (`InvertedBoundsDefault`).
- **A discrete type's default need not be one of its factors.** The snapped factor
  is clamped to the bounds afterwards: factors 1 and 2, bounds 1.5 to 3 and default
  1 give the default 1.5 (`DiscreteDefaultOffFactor`).
- **Names and factors need not line up.** A record may declare factors and
  techs but inherit a longer name list. The constructor only warns about this, and
  not at all for a free-scale type. `ScaleNames` then cuts the names to the tech
  list, even outside a research game (`UngatedScaleSteps`).
- **The per-part wait in `WriteDryCost` never waits.** Its condition is false
  for a part with a prefab. For a part without one, the condition dereferences
  null outside any `try`. That stops the coroutine before `isConcluded` is set.

## Model

| member | source | states |
|---|---|---|
| Tech.TechRegistry.Reload | ScaleType.cs:20-38 | outside CAREER/SCIENCE_SANDBOX (or with no current game), or when the save has no ResearchAndDevelopment scenario, the unlocked set is unchanged; otherwise it becomes exactly the scenario's tech ids plus `""` |
| Tech.TechRegistry.constructor | ScaleType.cs:18 | the unlocked set starts empty |
| Tech.ResearchScenario | ScaleType.cs:31 | the first scenario named ResearchAndDevelopment, none exactly when no scenario has that name |
| Tech.TechIds | ScaleType.cs:36 | an id is in the set exactly when some Tech node carries it |
| Tech.IsUnlocked | ScaleType.cs:40-47 | without a research game every tech is unlocked, stated by `IsUnlockedCases` and, for the scale getters, `UngatedScaleSteps`; inside one a tech is unlocked iff its id is empty or in the set, stated for the initial and reloaded sets by `InitialGateLocksAll` and `ReloadedGate` |
| Tech.InitialGateLocksAll | ScaleType.cs:18-47 | before any reload, a research game unlocks only the empty id |
| Tech.ReloadedGate | ScaleType.cs:36-46 | after a successful reload, a tech is unlocked iff its id is empty or listed in the scenario |
| ScaleTypes.ParseNodeInfo | ScaleType.cs:90-113 | stated by `ParseNodeInfoCases`, `ParseNodeInfoFamilyForm` and `ParseNodeInfoIgnoresRest` |
| ScaleTypeProperties.ParseNodeInfoCases | ScaleType.cs:90-113 | without a colon the whole text is the scale (0 when unparsable) and the family is unset; with one, the family is the text before the first colon and the scale the piece after it, or family unset and scale 0 when that piece does not parse |
| ScaleTypeProperties.ParseNodeInfoFamilyForm | ScaleType.cs:92-108 | `"family:scale"` reads back as that family and scale |
| ScaleTypeProperties.ParseNodeInfoIgnoresRest | ScaleType.cs:92-108 | anything after a second colon is ignored: only the first two pieces are read |
| ScaleTypes.LastValue | ScaleType.cs:278-281 | an override for a key exists iff the key is among the ATTACHNODES names, and it is the value of the last entry filed under that key |
| ScaleTypes.MergedStep | ScaleType.cs:280 | assigning one more value extends the merged table by exactly that key |
| ScaleTypes.GetNodeFactors | ScaleType.cs:272-290 | the clone-and-assign loop yields exactly the declarative table `NodeFactors` |
| ScaleTypes.NodeFactors | ScaleType.cs:272-290 | stated by `NodeFactorsContents` and `NodeFactorsWithoutOverrides`, and computed by the loop of `GetNodeFactors` |
| ScaleTypeProperties.NodeFactorsContents | ScaleType.cs:272-290 | the table's keys are the parent's, the overrides' and `"base"`; an overridden key holds its last override, other parent entries are kept, and `"base"` is the record's family at scale 1 only when neither side has one |
| ScaleTypeProperties.NodeFactorsWithoutOverrides | ScaleType.cs:274-287 | with no or an empty ATTACHNODES node the table is the parent's, plus `"base"` if missing |
| ScaleTypes.Inherit | ScaleType.cs:200-218 | stated by `ResolveInherits`, `ResolveName` and `NameOnlyInherited` |
| ScaleTypes.Repair | ScaleType.cs:225-267 | stated by `ResolveTechRequired`, `ResolveFallbacks`, `RepairDefaultScale` and `RepairCanonical` |
| ScaleTypes.Resolve | ScaleType.cs:189-270 | stated by `ResolveDefaultRecord`, `ResolveInherits`, `ResolveDefaultScale`, `ResolveHasBase` and `ResolveDepthIrrelevant` |
| ScaleTypes.GetScaleConfig | ScaleType.cs:60-68 | stated by `GetScaleConfigFound`, `GetScaleConfigUnknown` and `GetScaleConfigDepthIrrelevant` |
| ScaleTypeProperties.ResolveDepthIrrelevant | ScaleType.cs:189-198 | any two sufficient chain bounds give the same scale type |
| ScaleTypeProperties.GetScaleConfigDepthIrrelevant | ScaleType.cs:60-68 | the same for a lookup by name |
| ScaleTypeProperties.GetScaleConfigFound | ScaleType.cs:60-68 | a name that is found resolves the first record filed under it, with one parent link used |
| ScaleTypeProperties.TwoCycleUnbounded | ScaleType.cs:189-198 | two records whose `type` names find each other have no bounded chain |
| ScaleTypeProperties.SelfParentUnbounded | ScaleType.cs:189-198 | a record whose `type` finds the record itself has no bounded chain (the constructor does not terminate on it) |
| ScaleTypeProperties.ResolveDefaultRecord | ScaleType.cs:189-195 | a null record or one named `"default"` (or unnamed) yields the field initialisers: no name, no attach nodes |
| ScaleTypeProperties.GetScaleConfigUnknown | ScaleType.cs:60-68 | an unknown name yields the built-in default, which has a `"base"` node |
| ScaleTypeProperties.ResolveInherits | ScaleType.cs:200-213 | each field is the record's own parsed value or the parent's; names are trimmed; the family is the record's own or `"default"`; exponents come from the record and the parent's table |
| ScaleTypeProperties.ResolveName | ScaleType.cs:192-218 | the record's name is always present past the early return; `"TweakScale"` takes the parent's name |
| ScaleTypeProperties.ResolveTechRequired | ScaleType.cs:207-235 | a tech list shorter than the factors is padded with `""` to their length, keeping its prefix; a longer or equal one is kept as trimmed |
| ScaleTypeProperties.ResolvedTechCoversFactors | ScaleType.cs:231-234 | every resolved scale type has at least one tech entry per factor |
| ScaleTypeProperties.ResolveFallbacks | ScaleType.cs:237-267 | a zero maximum becomes the largest factor (4 × declared default without factors), a zero minimum the smallest (0.5 × declared default), zero large/slide increments become the maximum and the maximum / 200 |
| ScaleTypeProperties.RepairDefaultScale | ScaleType.cs:259-263 | the default scale is in range whenever the range is non-empty; a free-scale default in range is kept, one below the range becomes the minimum and one above it the maximum; a discrete type's default is the clamp of a factor nearest the declared default, that factor itself when it is in range, and always a nearest factor when both bounds fell back to the factors |
| ScaleTypeProperties.InvertedBoundsDefault | ScaleType.cs:259-263 | with minimum 4 above maximum 2, a free-scale declared default 3 becomes 4, outside the bounds |
| ScaleTypeProperties.DiscreteDefaultOffFactor | ScaleType.cs:259-263 | factors 1 and 2 with bounds 1.5 to 3 and declared default 1 give the default 1.5, which is not a factor |
| ScaleTypeProperties.ResolveDefaultScale | ScaleType.cs:237-263 | the same facts about a resolved record, stated on the record's declared or inherited values |
| ScaleTypeProperties.ResolveHasBase | ScaleType.cs:272-290 | every record past the early return has a `"base"` attach node |
| ScaleTypeProperties.CanonicalFactors | ScaleType.cs:134 | the canonical factors' maximum is 5, minimum 0.625, and 1.25 snaps to itself |
| ScaleTypeProperties.RepairCanonical | ScaleType.cs:237-267 | repairing the canonical fields with default 1.25 gives bounds 0.625 and 5, default 1.25, increments 5 and 0.025 |
| ScaleTypeProperties.NameOnlyInherited | ScaleType.cs:200-213 | inheriting into a record that gives only its name copies every field of the built-in default, except the name and the family `"default"` |
| ScaleTypeProperties.NameOnlyRecord | ScaleType.cs:189-270 | a record with only a name, without a `"default"` record in the database, is the built-in default with that name, family `"default"`, bounds 0.625 to 5 and increments 5 and 0.025 |
| ScaleTypes.AllScaleFactors | ScaleType.cs:154-160 | stated by `BigRecord`: the record's own factors, whatever is unlocked |
| ScaleTypes.ScaleFactors | ScaleType.cs:162-169 | stated by `GatedScaleSteps` and `UngatedScaleSteps` |
| ScaleTypes.ScaleNames | ScaleType.cs:171-178 | stated by `GatedScaleSteps` and `UngatedScaleSteps`, for names of any length: the names at the unlocked steps, counted up to the shorter of the name and tech lists |
| ScaleTypeProperties.GatedScaleSteps | ScaleType.cs:162-178 | the offered factors are those at the steps whose tech is unlocked, in order, and a step is offered iff its tech is unlocked; the offered names are those at the unlocked steps up to the shorter of the name and tech lists, the same steps as the factors when there are as many names as factors |
| ScaleTypeProperties.UngatedScaleSteps | ScaleType.cs:154-178 | outside a research game the offered factors are `AllScaleFactors`; the offered names are all names when there are no more names than techs, and otherwise the names cut to the number of techs |
| ScaleTypeProperties.BigRecord | ScaleType.cs:154-207 | a record with two factors 1 and 2, two names, and an empty first tech offers only the first factor and the first name while its second tech is locked; `AllScaleFactors` is still 1, 2 |
| ScaleTypes.SameScaleType | ScaleType.cs:310-327 | stated by `SameScaleTypeIsEquivalence` |
| ScaleTypeProperties.SameScaleTypeIsEquivalence | ScaleType.cs:303-327 | name equality of possibly null scale types is reflexive, symmetric and transitive, and is name equality on non-null ones |
| ScaleTypes.ScaleTypeRegistry.AllScaleTypes | ScaleType.cs:121-130 | the first call resolves every SCALETYPE record in database order and keeps the list; later calls return the kept list unchanged |
| Config.GetValue | ScaleType.cs:192-197 | the first value filed under the key; none exactly when no value has that key |
| Config.FindConfig | ScaleType.cs:62 | the first SCALETYPE record of that name; none exactly when no record has it |
| Text.Trim | ScaleType.cs:206-207 | the result has no white space at either end |
| Text.TrimSlice | ScaleType.cs:206-207 | the result is the contiguous slice of the input that starts where the leading white space ends |
| Text.TrimCutsWhiteSpace | ScaleType.cs:206-207 | everything cut off before and after that slice is white space |
| Text.TrimAllTrimmed | ScaleType.cs:206-207 | trimming a list of already trimmed names changes nothing |
| Text.TrimIdempotent | ScaleType.cs:206-207 | trimming twice is trimming once |
| Text.JoinSplit | ScaleType.cs:92 | joining the pieces of a split restores the text |
| Text.SplitJoin | ScaleType.cs:92 | splitting a join of separator-free pieces restores the pieces |
| Text.SplitCons | ScaleType.cs:92 | a separator-free piece followed by the separator is the first piece, and the rest splits on its own |
| Text.SplitTwoPieces | ScaleType.cs:92 | two separator-free pieces, each followed by the separator, are the first two pieces whatever follows |
| Tools.Max | ScaleType.cs:242 | an element of the factors, at least every factor |
| Tools.Min | ScaleType.cs:252 | an element of the factors, at most every factor |
| Tools.Closest | ScaleType.cs:261 | a factor at the least distance from the value; the value itself when there are no factors |
| Tools.Clamp | ScaleType.cs:263 | within the bounds when they are ordered, the value itself when it is in range, the minimum when the value is below it, otherwise the maximum when the value is above it |
| Tools.PadRight | ScaleType.cs:233 | exactly the target length, the original as prefix, `""` after it |
| Tools.ZipFilterSelects | ScaleType.cs:166-175 | `ZipFilter` keeps exactly the elements at the indices whose key passes, up to the shorter array |
| Tools.ZipFilterAllKept | ScaleType.cs:166-175 | when every key passes, `ZipFilter` is the input cut to the shorter length |
| PrefabDryCost.WaitForCatalog | Source/Scale/PrefabDryCostWriter.cs:13-31 | the wait ends at the first tick with a list, or after 121 yields when the list is null through tick 120 |
| PrefabDryCost.WaitForStableCount | Source/Scale/PrefabDryCostWriter.cs:35-44 | the wait ends at the first tick whose count equals the previous tick's (never the first check, because of the `int.MinValue` start), after at most 121 yields, or at a null list |
| PrefabDryCostProperties.CatalogWaitUnique | Source/Scale/PrefabDryCostWriter.cs:27-31 | the catalog wait has exactly one possible end |
| PrefabDryCostProperties.StabilityWaitUnique | Source/Scale/PrefabDryCostWriter.cs:36-43 | the stability wait has exactly one possible end |
| PrefabDryCostProperties.SteadyCatalog | Source/Scale/PrefabDryCostWriter.cs:27-43 | a catalog present from the start and never changing ends the first wait at once and the second after one yield |
| PrefabDryCost.ModuleNamed | Source/Scale/PrefabDryCostWriter.cs:61-73 | the first module of that name; found exactly when `Contains` holds |
| PrefabDryCost.ResourceValue | Source/Scale/PrefabDryCostWriter.cs:74 | defined exactly when every resource has a definition |
| PrefabDryCostProperties.ResourceValueAppend | Source/Scale/PrefabDryCostWriter.cs:74 | the value of two resource lists one after the other is the sum of their values |
| PrefabDryCostProperties.ResourceValueOne | Source/Scale/PrefabDryCostWriter.cs:74 | one resource is worth its maximum amount times its unit cost |
| PrefabDryCost.Clamped | Source/Scale/PrefabDryCostWriter.cs:77-81 | never negative; a non-negative raw cost is kept and a negative one becomes 0 |
| PrefabDryCost.WritePart | Source/Scale/PrefabDryCostWriter.cs:48-89 | one visit does what `Plan` says and writes only the part's TweakScale module: the clamped dry cost, and the flag ORed with the fuel-switch test |
| PrefabDryCost.Plan | Source/Scale/PrefabDryCostWriter.cs:54-89 | stated by `WrittenExactly`, `WrittenValues` and `UnscaledPartSkipped` |
| PrefabDryCostProperties.WrittenExactly | Source/Scale/PrefabDryCostWriter.cs:59-89 | a part is written iff it has a prefab, a module list, a TweakScale module of the TweakScale class, and a definition for every resource |
| PrefabDryCostProperties.WrittenValues | Source/Scale/PrefabDryCostWriter.cs:73-81 | the written value is cost − resource value, or 0 when that is negative; the written module is the part's first TweakScale module; the fuel-switch flag is the `FSfuelSwitch` test |
| PrefabDryCostProperties.UnscaledPartSkipped | Source/Scale/PrefabDryCostWriter.cs:61-62 | a part without a TweakScale module is skipped and writes nothing |
| PrefabDryCostProperties.TankExamples | Source/Scale/PrefabDryCostWriter.cs:74-81 | cost 100 with 10 units at 5 gives dry cost 50; cost 10 with the same resource gives 0 |
| PrefabDryCost.DryCostPass | Source/Scale/PrefabDryCostWriter.cs:46-90 | visits parts in order, stopping only at a null prefab; each written module holds its own part's values and every other module is unchanged |
| PrefabDryCostProperties.PassUnique | Source/Scale/PrefabDryCostWriter.cs:46-90 | the pass over a list has exactly one possible outcome |
| PrefabDryCostProperties.PassCompleteExactly | Source/Scale/PrefabDryCostWriter.cs:46-54 | the pass visits every part iff no part has a null prefab |
| PrefabDryCost.PrefabDryCostWriter.WriteDryCost | Source/Scale/PrefabDryCostWriter.cs:23-93 | the two waits end as stated above; the pass runs over the list found then; `isConcluded` is true at the end iff the pass visited every part, and false after an abort on a null list or null prefab |
| PrefabDryCost.PrefabDryCostWriter.constructor | Source/Scale/PrefabDryCostWriter.cs:15 | `isConcluded` starts false |
| PrefabDryCostProperties.BatchPlans | Source/Scale/PrefabDryCostWriter.cs:59-89 | in a batch of three tanks whose second has a resource without a definition, the first and third are written (50 and 0) and the second fails |
| PrefabDryCostProperties.BatchScenario | Source/Scale/PrefabDryCostWriter.cs:23-93 | the whole coroutine on that batch writes 50 and 0 into the healthy tanks' modules, leaves the failing tank's module at the value 7 it held before the run, and raises `isConcluded` |

## Left out

- File I/O. `Tech.Reload` gets the current game with the SCENARIO nodes of its `persistent.sfs` already parsed. The path, `ConfigNode.Load`, and a save without a GAME node (a null dereference in the code) are not modelled.
- Logging (`Tools.LogWf`, `Debug.Log*`), including the scale-count and tech-count warnings and the `Mathf.Abs(scale) < 0.01` warning. None of it affects a result.
- Unity scheduling. `TechUpdater.Start`, `StartCoroutine` and real frames are left out. A `yield return null` is one step of the tick index.
- Concurrency. Readers of `isConcluded` and `DryCost` running beside the coroutine are not modelled.
- IEEE floating point. Numbers are `real`. This leaves out the `float` rounding of factors, bounds and `MaxValue / 200f`, and the `(float)` cast of the double dry cost.
- Text parsing. `float.TryParse`, `bool.TryParse` and the array parsers of `Tools.ConfigValue` are parameters (`Parsers`) that return `None` for text that does not parse.
- Helper definitions. `Tools.ConfigValue`, `Tools.Closest`, `Tools.Clamp`, `ZipFilter`, `Repeat` and `Clone` are not in ScaleType.cs or PrefabDryCostWriter.cs. Each is given a definition:
  - `ConfigValue`: the first value for the key, parsed, with the default when absent or unparsable.
  - `Closest`: the earliest element at least distance, and the value itself for an empty array.
  - `Clamp`: the if-chain.
  - `ZipFilter`: filter over the zipped pairs, stopping at the shorter array.
- White space. `Text.IsWhiteSpace` covers the ASCII white space and the no-break space, not every Unicode white-space character that `String.Trim` removes.
- `ScaleExponents.CreateExponentsForModule`. It is a parameter of the environment, and its table is never inspected.
- `ToString`, `GetHashCode`, `Equals(object)`'s run-time type test, and the `BaseScale` getter.
- The `NodeInfo(family, scale)` constructor. It is the datatype constructor `NodeInfo`, without its warning.
- ScaleTypes.Resolve: requires a bounded parent chain (`ChainBounded`), because a cyclic chain does not terminate in the code either.
- ScaleTypes.ScaleTypeRegistry.AllScaleTypes: requires a chain bound for every record, for the same reason.
- Tech.TechIds: a Tech node without an `id` puts null into the C# set. The model drops it, since a null never equals an id that is asked about.
- PrefabDryCost.PrefabDryCostWriter.WriteDryCost: requires that no two parts of a list write the same module object. It also requires that a ghost footprint covers every module written. Parts that share one TweakScale module object (aliasing) are not modelled.
- PrefabDryCost.WritePart: three failures inside the two `try` blocks are modelled: a null module list, an `as TweakScale` cast that gives null, and a resource without a definition. Any other exception there is not modelled.
