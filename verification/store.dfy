/**
 * The persisted state as an abstract cell: `None` when nothing was ever
 * written, `Some(s)` holding the last state saved. Loading reads the cell,
 * heals and rolls the state over, and writes only on first use.
 */
module Store {
  import opened Wrappers
  import Catalog
  import opened State

  type Store = Option<TrainingState>

  /** What a load hands back, and the cell as it stands afterwards. */
  datatype Loaded = Loaded(state: TrainingState, store: Store)

  /** Overwrites the cell with the whole state. */
  function Save(s: TrainingState): (store: Store)
    ensures store.Some? && store.value == s
  {
    Some(s)
  }

  /**
   * Loads the state for week `current`. An empty cell is initialised with
   * the default state, which is written and returned. Otherwise the stored
   * state is repaired and rolled over in memory only: the cell is not
   * written, so a rollover is committed only by a later save.
   */
  function Load(store: Store, current: IsoWeek): (r: Loaded)
    ensures Settled(r.state, current)
    ensures store.None? ==> r.store == Some(r.state)
    ensures store.None? ==> r.state.exercises.Keys == Catalog.CatalogKeys
    ensures store.None? ==> forall k :: k in r.state.exercises ==> r.state.exercises[k] == Fresh
    ensures store.None? ==> r.state.metadata == StampOf(current)
    ensures store.Some? ==> r.store == store
    ensures store.Some? ==> r.state.exercises.Keys == store.value.exercises.Keys + Catalog.CatalogKeys
    ensures store.Some? ==> forall k :: k in store.value.exercises ==>
              r.state.exercises[k].lastDone == store.value.exercises[k].lastDone
    ensures store.Some? ==> forall k :: k in r.state.exercises && k !in store.value.exercises ==>
              r.state.exercises[k] == Fresh
    ensures store.Some? && EffectiveStamp(store.value.metadata, current) != current ==>
              r.state.metadata == StampOf(current)
    ensures store.Some? && EffectiveStamp(store.value.metadata, current) != current ==>
              forall k :: k in r.state.exercises ==> r.state.exercises[k].timesThisWeek == 0
    ensures store.Some? && EffectiveStamp(store.value.metadata, current) == current ==>
              r.state.metadata == store.value.metadata
    ensures store.Some? && EffectiveStamp(store.value.metadata, current) == current ==>
              forall k :: k in store.value.exercises ==> r.state.exercises[k] == store.value.exercises[k]
  {
    match store
    case None =>
      var s := DefaultState(current);
      Loaded(s, Save(s))
    case Some(stored) =>
      Loaded(Rollover(Repair(stored), current), store)
  }

  /** A settled state survives a save followed by a load unchanged. */
  lemma LoadAfterSave(s: TrainingState, current: IsoWeek)
    requires Settled(s, current)
    ensures Load(Save(s), current).state == s
    ensures Load(Save(s), current).store == Save(s)
  {
    RepairIdempotent(s);
  }

  /**
   * Loading twice in the same week yields the same state, whether or not
   * the caller saved in between; so a week's counters are zeroed at most
   * once even though load itself does not commit the rollover.
   */
  lemma LoadTwiceSameWeek(store: Store, current: IsoWeek)
    ensures Load(Load(store, current).store, current).state == Load(store, current).state
    ensures Load(Save(Load(store, current).state), current).state == Load(store, current).state
  {
    var first := Load(store, current);
    LoadAfterSave(first.state, current);
  }
}
