/**
 * The fixed exercise catalog: nine definitions, each with a weekly target,
 * a minimal rest in hours between two sessions and a CNS load level. The
 * catalog is an ordered sequence because the recommendation lists follow
 * its order.
 */
module Catalog {

  datatype CnsLevel = Low | Medium | High

  /** One catalog entry; the display name and description are not modelled. */
  datatype ExerciseDefinition = ExerciseDefinition(
    key: string,
    timesPerWeekTarget: nat,
    minimalRestHours: nat,
    cnsLevel: CnsLevel)

  const Exercises: seq<ExerciseDefinition> := [
    ExerciseDefinition("squat", 2, 48, High),
    ExerciseDefinition("hinge", 1, 72, High),
    ExerciseDefinition("unilateral", 2, 48, Medium),
    ExerciseDefinition("calves", 5, 24, Low),
    ExerciseDefinition("ohp", 2, 48, Medium),
    ExerciseDefinition("horizontal_row", 2, 48, Low),
    ExerciseDefinition("vertical_pull_volume", 1, 72, Medium),
    ExerciseDefinition("vertical_pull_strength", 1, 72, High),
    ExerciseDefinition("core", 3, 24, Low)
  ]

  /** The set of keys of a sequence of definitions. */
  function KeySet(defs: seq<ExerciseDefinition>): set<string> {
    set d | d in defs :: d.key
  }

  /** The catalog's key set: the keys every training state must cover. */
  const CatalogKeys: set<string> := KeySet(Exercises)

  /** The keys of `defs`, in order. */
  function KeysOf(defs: seq<ExerciseDefinition>): (ks: seq<string>)
    ensures |ks| == |defs|
    ensures forall i :: 0 <= i < |defs| ==> ks[i] == defs[i].key
  {
    if |defs| == 0 then [] else KeysOf(defs[..|defs| - 1]) + [defs[|defs| - 1].key]
  }

  /** No key occurs twice: the catalog is a mapping from key to definition. */
  predicate DistinctKeys(defs: seq<ExerciseDefinition>) {
    forall i, j :: 0 <= i < j < |defs| ==> defs[i].key != defs[j].key
  }

  /** Facts about the fixed catalog the rest of the model relies on. */
  lemma CatalogWellFormed()
    ensures |Exercises| == 9
    ensures DistinctKeys(Exercises)
    ensures forall i :: 0 <= i < |Exercises| ==> Exercises[i].timesPerWeekTarget > 0
    ensures forall i :: 0 <= i < |Exercises| ==> Exercises[i].minimalRestHours <= 72
    ensures exists i :: 0 <= i < |Exercises| && Exercises[i].cnsLevel == High
  {
    assert Exercises[0].cnsLevel == High;
  }
}
