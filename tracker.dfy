/** The Growth Tracker section (app.py lines 110-120): five fixed areas, each
    with three ordered levels; the snapshot maps every area to the level
    picked for it. It is shown as a table and never stored. */
module Tracker {

  /** One self-assessment area with its levels, lowest first. */
  datatype Area = Area(name: string, levels: seq<string>)

  /** The fixed `progress_areas` table. */
  const ProgressAreas: seq<Area> := [
    Area("Handling Challenges", ["Avoids Challenges", "Attempts Sometimes", "Seeks Challenges"]),
    Area("Receiving Feedback", ["Ignores Feedback", "Considers Feedback", "Implements Feedback"]),
    Area("Skill Development", ["Sticks to Comfort Zone", "Explores Occasionally", "Consistently Grows"]),
    Area("Resilience to Failure", ["Gives Up", "Tries Again", "Adapts and Improves"]),
    Area("Learning from Others", ["Feels Intimidated", "Observes and Learns", "Collaborates & Grows"])
  ]

  /** One selectbox index per area, each naming one of that area's levels. */
  predicate ValidChoice(areas: seq<Area>, choice: seq<nat>)
  {
    |choice| == |areas| && forall i :: 0 <= i < |areas| ==> choice[i] < |areas[i].levels|
  }

  /** The area names of `areas`. */
  function Names(areas: seq<Area>): (names: set<string>)
    decreases |areas|
  {
    if |areas| == 0 then {} else Names(areas[..|areas| - 1]) + {areas[|areas| - 1].name}
  }

  /** `Names` holds the name of every area and nothing else. */
  lemma {:induction false} NamesOfAreas(areas: seq<Area>)
    ensures forall i :: 0 <= i < |areas| ==> areas[i].name in Names(areas)
    ensures forall name :: name in Names(areas) ==> exists i :: 0 <= i < |areas| && areas[i].name == name
    decreases |areas|
  {
    if |areas| > 0 {
      var last := |areas| - 1;
      var prefix := areas[..last];
      NamesOfAreas(prefix);
      assert forall i :: 0 <= i < last ==> prefix[i] == areas[i];
    }
  }

  /** No later area of `areas` has the name of area `i`. */
  predicate LastOfName(areas: seq<Area>, i: int)
    requires 0 <= i < |areas|
  {
    forall j :: i < j < |areas| ==> areas[j].name != areas[i].name
  }

  /** `{area: selected level for area, ...}` built in table order; as with a
      Python dict comprehension, a later area of the same name wins. */
  function SnapshotOf(areas: seq<Area>, choice: seq<nat>): (m: map<string, string>)
    requires ValidChoice(areas, choice)
    decreases |areas|
  {
    if |areas| == 0 then map[]
    else
      var last := |areas| - 1;
      PrefixChoiceValid(areas, choice, last);
      SnapshotOf(areas[..last], choice[..last])[areas[last].name := areas[last].levels[choice[last]]]
  }

  /** A valid choice stays valid for the first `n` areas. */
  lemma PrefixChoiceValid(areas: seq<Area>, choice: seq<nat>, n: nat)
    requires ValidChoice(areas, choice) && n <= |areas|
    ensures ValidChoice(areas[..n], choice[..n])
  {
  }

  /** The snapshot has exactly one key per area name. */
  lemma {:induction false} SnapshotKeys(areas: seq<Area>, choice: seq<nat>)
    requires ValidChoice(areas, choice)
    ensures SnapshotOf(areas, choice).Keys == Names(areas)
    decreases |areas|
  {
    if |areas| > 0 {
      var last := |areas| - 1;
      PrefixChoiceValid(areas, choice, last);
      var prefix, picks := areas[..last], choice[..last];
      SnapshotKeys(prefix, picks);
      var earlier := SnapshotOf(prefix, picks);
      assert SnapshotOf(areas, choice) == earlier[areas[last].name := areas[last].levels[choice[last]]];
      assert Names(areas) == Names(prefix) + {areas[last].name};
    }
  }

  /** Each area name is mapped to the level picked for the last area of that
      name, which is one of that area's levels. */
  lemma {:induction false} SnapshotPicks(areas: seq<Area>, choice: seq<nat>, i: nat)
    requires ValidChoice(areas, choice)
    requires i < |areas| && LastOfName(areas, i)
    ensures areas[i].name in SnapshotOf(areas, choice)
    ensures SnapshotOf(areas, choice)[areas[i].name] == areas[i].levels[choice[i]]
    ensures SnapshotOf(areas, choice)[areas[i].name] in areas[i].levels
    decreases |areas|
  {
    var last := |areas| - 1;
    if i < last {
      PrefixChoiceValid(areas, choice, last);
      var prefix, picks := areas[..last], choice[..last];
      assert prefix[i] == areas[i] && picks[i] == choice[i];
      assert LastOfName(prefix, i) by {
        forall j | i < j < last ensures prefix[j].name != prefix[i].name {
          assert prefix[j] == areas[j];
        }
      }
      SnapshotPicks(prefix, picks, i);
      assert areas[last].name != areas[i].name;
    }
  }

  /** The names of the fixed areas are pairwise different. */
  lemma ProgressAreaNamesDistinct()
    ensures forall i, j :: 0 <= i < j < |ProgressAreas| ==> ProgressAreas[i].name != ProgressAreas[j].name
  {
  }

  /** The names of the five fixed areas. */
  const AreaNames: set<string> := {"Handling Challenges", "Receiving Feedback", "Skill Development",
                                   "Resilience to Failure", "Learning from Others"}

  lemma ProgressAreaNames()
    ensures Names(ProgressAreas) == AreaNames
  {
    var names := Names(ProgressAreas);
    NamesOfAreas(ProgressAreas);
    forall i | 0 <= i < |ProgressAreas| ensures ProgressAreas[i].name in AreaNames {
    }
    forall x | x in names ensures x in AreaNames {
      var i :| 0 <= i < |ProgressAreas| && ProgressAreas[i].name == x;
    }
    forall x | x in AreaNames ensures x in names {
      if x == "Handling Challenges" { assert ProgressAreas[0].name == x; }
      else if x == "Receiving Feedback" { assert ProgressAreas[1].name == x; }
      else if x == "Skill Development" { assert ProgressAreas[2].name == x; }
      else if x == "Resilience to Failure" { assert ProgressAreas[3].name == x; }
      else { assert ProgressAreas[4].name == x; }
    }
  }

  /** The page's snapshot: each of the five areas is mapped to the level
      picked for it, which is one of its three levels. */
  function Snapshot(choice: seq<nat>): (m: map<string, string>)
    requires ValidChoice(ProgressAreas, choice)
    ensures m.Keys == AreaNames
    ensures forall i :: 0 <= i < |ProgressAreas| ==> m[ProgressAreas[i].name] == ProgressAreas[i].levels[choice[i]]
  {
    var m := SnapshotOf(ProgressAreas, choice);
    SnapshotKeys(ProgressAreas, choice);
    ProgressAreaNames();
    assert forall i :: 0 <= i < |ProgressAreas| ==> m[ProgressAreas[i].name] == ProgressAreas[i].levels[choice[i]] by {
      ProgressAreaNamesDistinct();
      forall i | 0 <= i < |ProgressAreas|
        ensures m[ProgressAreas[i].name] == ProgressAreas[i].levels[choice[i]]
      {
        SnapshotPicks(ProgressAreas, choice, i);
      }
    }
    m
  }

  /** With nothing picked every selectbox shows its first option, so every
      area is at its lowest level. */
  lemma DefaultSnapshotIsLowest()
    ensures Snapshot([0, 0, 0, 0, 0]) == map[
      "Handling Challenges" := "Avoids Challenges",
      "Receiving Feedback" := "Ignores Feedback",
      "Skill Development" := "Sticks to Comfort Zone",
      "Resilience to Failure" := "Gives Up",
      "Learning from Others" := "Feels Intimidated"]
  {
    var m := Snapshot([0, 0, 0, 0, 0]);
    assert m["Handling Challenges"] == "Avoids Challenges" by { assert ProgressAreas[0].name == "Handling Challenges"; }
    assert m["Receiving Feedback"] == "Ignores Feedback" by { assert ProgressAreas[1].name == "Receiving Feedback"; }
    assert m["Skill Development"] == "Sticks to Comfort Zone" by { assert ProgressAreas[2].name == "Skill Development"; }
    assert m["Resilience to Failure"] == "Gives Up" by { assert ProgressAreas[3].name == "Resilience to Failure"; }
    assert m["Learning from Others"] == "Feels Intimidated" by { assert ProgressAreas[4].name == "Learning from Others"; }
  }
}
