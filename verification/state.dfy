/**
 * The persisted training state: an ISO-week stamp plus one runtime record
 * per exercise key, and the three operations that build and heal it —
 * the default state, the repair that adds missing catalog keys, and the
 * weekly rollover of the counters.
 */
module State {
  import opened Wrappers
  import Catalog

  /** An ISO 8601 (year, week-number) pair. */
  datatype IsoWeek = IsoWeek(year: int, week: int)

  /** The stored stamp; a field missing from the stored object is `None`. */
  datatype Metadata = Metadata(isoYear: Option<int>, isoWeek: Option<int>)

  /**
   * Runtime record of one exercise. `lastDone` is a day number; `None`
   * stands for a null, absent or unparseable date, which every reader of
   * the field treats alike. A missing counter reads as 0 everywhere.
   */
  datatype Runtime = Runtime(lastDone: Option<int>, timesThisWeek: nat)

  /** The whole state. The map may hold keys outside the catalog. */
  datatype TrainingState = TrainingState(metadata: Metadata, exercises: map<string, Runtime>)

  /** The runtime record of an exercise that was never done. */
  const Fresh: Runtime := Runtime(None, 0)

  /** The metadata written for the week `current`. */
  function StampOf(current: IsoWeek): Metadata {
    Metadata(Some(current.year), Some(current.week))
  }

  /** The stored (year, week) with each missing field read as the current one. */
  function EffectiveStamp(meta: Metadata, current: IsoWeek): (w: IsoWeek)
    ensures meta.isoYear.Some? ==> w.year == meta.isoYear.value
    ensures meta.isoWeek.Some? ==> w.week == meta.isoWeek.value
    ensures meta.isoYear.None? ==> w.year == current.year
    ensures meta.isoWeek.None? ==> w.week == current.week
    ensures meta == StampOf(current) ==> w == current
  {
    IsoWeek(meta.isoYear.GetOr(current.year), meta.isoWeek.GetOr(current.week))
  }

  /** Every catalog key has a runtime record. */
  predicate CoversCatalog(s: TrainingState) {
    Catalog.CatalogKeys <= s.exercises.Keys
  }

  /** A state that loading in week `current` would hand back unchanged. */
  predicate Settled(s: TrainingState, current: IsoWeek) {
    CoversCatalog(s) && EffectiveStamp(s.metadata, current) == current
  }

  /** The zeroed state stamped with `current`: every catalog key, never done. */
  function DefaultState(current: IsoWeek): (s: TrainingState)
    ensures s.exercises.Keys == Catalog.CatalogKeys
    ensures forall k :: k in s.exercises ==> s.exercises[k] == Fresh
    ensures s.metadata == StampOf(current)
    ensures Settled(s, current)
  {
    TrainingState(StampOf(current), map k | k in Catalog.CatalogKeys :: Fresh)
  }

  /**
   * Walks `defs` in order and inserts a fresh record for every key not
   * yet in `m`; records already present are kept as they are.
   */
  function AddMissing(defs: seq<Catalog.ExerciseDefinition>, m: map<string, Runtime>): (r: map<string, Runtime>)
    ensures r.Keys == m.Keys + Catalog.KeySet(defs)
    ensures forall k :: k in m ==> r[k] == m[k]
    ensures forall k :: k in r && k !in m ==> r[k] == Fresh
    decreases |defs|
  {
    if |defs| == 0 then m
    else
      var k := defs[0].key;
      var m' := if k in m then m else m[k := Fresh];
      assert Catalog.KeySet(defs) == {k} + Catalog.KeySet(defs[1..]) by {
        assert forall d :: d in defs <==> d == defs[0] || d in defs[1..];
      }
      AddMissing(defs[1..], m')
  }

  /** Heals a loaded state so that it covers the catalog. */
  function Repair(s: TrainingState): (r: TrainingState)
    ensures CoversCatalog(r)
    ensures r.exercises.Keys == s.exercises.Keys + Catalog.CatalogKeys
    ensures forall k :: k in s.exercises ==> r.exercises[k] == s.exercises[k]
    ensures forall k :: k in r.exercises && k !in s.exercises ==> r.exercises[k] == Fresh
    ensures r.metadata == s.metadata
  {
    s.(exercises := AddMissing(Catalog.Exercises, s.exercises))
  }

  /**
   * Zeroes every weekly counter and restamps the state when its stored
   * week differs from `current`; otherwise leaves the state alone.
   */
  function Rollover(s: TrainingState, current: IsoWeek): (r: TrainingState)
    ensures EffectiveStamp(r.metadata, current) == current
    ensures EffectiveStamp(s.metadata, current) == current ==> r == s
    ensures EffectiveStamp(s.metadata, current) != current ==> r.metadata == StampOf(current)
    ensures r.exercises.Keys == s.exercises.Keys
    ensures forall k :: k in r.exercises ==> r.exercises[k].lastDone == s.exercises[k].lastDone
    ensures EffectiveStamp(s.metadata, current) != current ==>
              forall k :: k in r.exercises ==> r.exercises[k].timesThisWeek == 0
  {
    if EffectiveStamp(s.metadata, current) == current then s
    else TrainingState(StampOf(current), map k | k in s.exercises :: s.exercises[k].(timesThisWeek := 0))
  }

  /** Repair of a state that already covers the catalog is the identity. */
  lemma CoveringRepairIsIdentity(s: TrainingState)
    requires CoversCatalog(s)
    ensures Repair(s) == s
  {
    var r := Repair(s);
    assert r.exercises.Keys == s.exercises.Keys;
    forall k | k in s.exercises
      ensures r.exercises[k] == s.exercises[k]
    {
    }
    assert r.exercises == s.exercises;
  }

  /** Repairing twice is repairing once; a state that covers the catalog is left alone. */
  lemma RepairIdempotent(s: TrainingState)
    ensures Repair(Repair(s)) == Repair(s)
    ensures CoversCatalog(s) ==> Repair(s) == s
  {
    CoveringRepairIsIdentity(Repair(s));
    if CoversCatalog(s) {
      CoveringRepairIsIdentity(s);
    }
  }

  /** A second rollover in the same week changes nothing. */
  lemma RolloverIdempotent(s: TrainingState, current: IsoWeek)
    ensures Rollover(Rollover(s, current), current) == Rollover(s, current)
  {
  }

  /** With no stamp at all, rollover never resets: the missing fields default to the current week. */
  lemma MissingStampNeverResets(s: TrainingState, current: IsoWeek)
    requires s.metadata == Metadata(None, None)
    ensures Rollover(s, current) == s
  {
  }

  /** Rolling over into a new week: every counter drops to 0 and no date moves. */
  lemma NewWeekZeroesCounters(s: TrainingState, stored: IsoWeek, current: IsoWeek)
    requires s.metadata == StampOf(stored)
    requires stored != current
    ensures Rollover(s, current).metadata == StampOf(current)
    ensures forall k :: k in s.exercises ==>
              Rollover(s, current).exercises[k] == Runtime(s.exercises[k].lastDone, 0)
  {
  }

  /** The default state is already settled: repair and rollover leave it unchanged. */
  lemma DefaultStateIsSettled(current: IsoWeek)
    ensures Rollover(Repair(DefaultState(current)), current) == DefaultState(current)
  {
    RepairIdempotent(DefaultState(current));
  }
}
