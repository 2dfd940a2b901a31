/** The tech gate: the process-wide set of unlocked tech ids that `Tech.Reload`
    rebuilds from the save's ResearchAndDevelopment scenario, and `Tech.IsUnlocked`,
    which answers "unlocked" whenever the current game has no research progression. */
module Tech {
  import opened Wrappers

  /** `Game.Modes`. */
  datatype Mode = Sandbox | Career | Scenario | ScenarioNonResumable | ScienceSandbox | Mission | MissionBuilder

  /** A SCENARIO node of the save: its `name` value and the `id` value of each of its
      Tech children (`None` where a Tech child has no id). */
  datatype SaveScenario = SaveScenario(name: Option<string>, techIds: seq<Option<string>>)

  /** `HighLogic.CurrentGame`, with the SCENARIO nodes of the GAME node of its
      `persistent.sfs` already loaded. */
  datatype Game = Game(mode: Mode, scenarios: seq<SaveScenario>)

  const ResearchAndDevelopment: string := "ResearchAndDevelopment"

  /** There is a current game and its mode tracks research (CAREER or SCIENCE_SANDBOX). */
  predicate Gated(game: Option<Game>) {
    game.Some? && (game.value.mode == Career || game.value.mode == ScienceSandbox)
  }

  /** `scenarios.FirstOrDefault(a => a.GetValue("name") == "ResearchAndDevelopment")`. */
  function ResearchScenario(scenarios: seq<SaveScenario>): (r: Option<SaveScenario>)
    ensures r.None? <==> forall i :: 0 <= i < |scenarios| ==> scenarios[i].name != Some(ResearchAndDevelopment)
    ensures r.Some? ==> r.value.name == Some(ResearchAndDevelopment)
    ensures r.Some? ==> (exists i :: 0 <= i < |scenarios| && scenarios[i] == r.value
                           && forall j :: 0 <= j < i ==> scenarios[j].name != Some(ResearchAndDevelopment))
  {
    if |scenarios| == 0 then None
    else if scenarios[0].name == Some(ResearchAndDevelopment) then Some(scenarios[0])
    else
      var r := ResearchScenario(scenarios[1..]);
      assert r.Some? ==> (exists i :: 0 <= i < |scenarios| - 1 && scenarios[1..][i] == r.value
                            && forall j :: 0 <= j < i ==> scenarios[1..][j].name != Some(ResearchAndDevelopment));
      r
  }

  /** `techs.Select(a => a.GetValue("id")).ToHashSet()`, without the ids that are missing
      (a missing id never equals a tech id that is asked about). */
  function TechIds(ids: seq<Option<string>>): (r: set<string>)
    ensures forall id :: id in r <==> Some(id) in ids
  {
    set i | 0 <= i < |ids| && ids[i].Some? :: ids[i].value
  }

  /** `Tech.IsUnlocked(techId)` against the set `unlocked`. */
  predicate IsUnlocked(game: Option<Game>, unlocked: set<string>, techId: string) {
    if !Gated(game) then true
    else techId == "" || techId in unlocked
  }

  /** `Tech.IsUnlocked` as the gate that `ZipFilter` is given. */
  function Gate(game: Option<Game>, unlocked: set<string>): string -> bool {
    id => IsUnlocked(game, unlocked, id)
  }

  /** The static `Tech` class: its one piece of state is the unlocked set. */
  class TechRegistry {
    var unlockedTechs: set<string>

    /** The static initialiser: nothing unlocked yet. */
    constructor ()
      ensures unlockedTechs == {}
    {
      unlockedTechs := {};
    }

    /** `Tech.Reload()`: outside a research game, or when the save has no
        ResearchAndDevelopment scenario, nothing changes; otherwise the set is
        replaced by that scenario's tech ids plus the empty id. */
    method Reload(game: Option<Game>)
      modifies this
      ensures !Gated(game) ==> unlockedTechs == old(unlockedTechs)
      ensures Gated(game) && ResearchScenario(game.value.scenarios).None? ==> unlockedTechs == old(unlockedTechs)
      ensures Gated(game) && ResearchScenario(game.value.scenarios).Some? ==>
        unlockedTechs == TechIds(ResearchScenario(game.value.scenarios).value.techIds) + {""}
    {
      if game.None? {
        return;
      }
      if game.value.mode != Career && game.value.mode != ScienceSandbox {
        return;
      }
      var thisScenario := ResearchScenario(game.value.scenarios);
      if thisScenario.None? {
        return;
      }
      unlockedTechs := TechIds(thisScenario.value.techIds);
      unlockedTechs := unlockedTechs + {""};
    }
  }

  /** Outside a research game every tech is unlocked, whatever the set holds; inside
      one, a tech is unlocked exactly when its id is empty or in the set. */
  lemma IsUnlockedCases(game: Option<Game>, unlocked: set<string>, techId: string)
    ensures !Gated(game) ==> IsUnlocked(game, unlocked, techId)
    ensures IsUnlocked(game, unlocked, "")
    ensures Gated(game) ==> (IsUnlocked(game, unlocked, techId) <==> techId == "" || techId in unlocked)
  {
  }

  /** Before any reload, a research game unlocks only the empty id. */
  lemma InitialGateLocksAll(game: Option<Game>, techId: string)
    requires Gated(game)
    ensures IsUnlocked(game, {}, techId) <==> techId == ""
  {
  }

  /** After a reload that found the ResearchAndDevelopment scenario, a tech is
      unlocked exactly when its id is empty or listed in that scenario: what the set
      held before the reload plays no part. */
  lemma ReloadedGate(game: Option<Game>, techId: string)
    requires Gated(game) && ResearchScenario(game.value.scenarios).Some?
    ensures var after := TechIds(ResearchScenario(game.value.scenarios).value.techIds) + {""};
      IsUnlocked(game, after, techId) <==>
        techId == "" || Some(techId) in ResearchScenario(game.value.scenarios).value.techIds
  {
  }
}
