/**
 * Recording one completed session: the key is validated against the
 * catalog before the cell is touched, then the loaded state gets the new
 * date and one more session this week, and is saved.
 */
module Recorder {
  import opened Wrappers
  import Catalog
  import opened State
  import opened Store

  datatype RecordError = UnknownExercise(key: string)

  /**
   * Records `key` as done on day `performed`; the result is the cell after
   * the save. The date overwrites the stored one even when it is earlier,
   * and the counter of the current stored week goes up whatever week
   * `performed` falls in. On failure nothing was loaded or saved: the
   * caller's cell is unchanged.
   */
  function Record(store: Store, key: string, performed: int, current: IsoWeek): (r: Result<Store, RecordError>)
    ensures r.Failure? <==> key !in Catalog.CatalogKeys
    ensures r.Failure? ==> r.error == UnknownExercise(key)
    ensures r.Success? ==> r.value.Some?
    ensures r.Success? ==> r.value.value.metadata == Load(store, current).state.metadata
    ensures r.Success? ==> r.value.value.exercises.Keys == Load(store, current).state.exercises.Keys
    ensures r.Success? ==>
              (&& key in Load(store, current).state.exercises
               && r.value.value.exercises[key].lastDone == Some(performed)
               && r.value.value.exercises[key].timesThisWeek == Load(store, current).state.exercises[key].timesThisWeek + 1)
    ensures r.Success? ==> forall k :: k in Load(store, current).state.exercises && k != key ==>
              r.value.value.exercises[k] == Load(store, current).state.exercises[k]
  {
    if key !in Catalog.CatalogKeys then Failure(UnknownExercise(key))
    else
      var state := Load(store, current).state;
      var entry := state.exercises[key];
      var updated := state.(exercises := state.exercises[key := Runtime(Some(performed), entry.timesThisWeek + 1)]);
      Success(Save(updated))
  }

  /**
   * Round trip: after recording `key` on `performed`, loading in the same
   * week shows that date and exactly one more session than before, and
   * every other exercise as it was.
   */
  lemma RecordThenLoad(store: Store, key: string, performed: int, current: IsoWeek)
    requires key in Catalog.CatalogKeys
    ensures Record(store, key, performed, current).Success?
    ensures key in Load(Record(store, key, performed, current).value, current).state.exercises
    ensures Load(Record(store, key, performed, current).value, current).state.exercises[key].lastDone == Some(performed)
    ensures Load(Record(store, key, performed, current).value, current).state.exercises[key].timesThisWeek
              == Load(store, current).state.exercises[key].timesThisWeek + 1
    ensures forall k :: k in Load(store, current).state.exercises && k != key ==>
              Load(Record(store, key, performed, current).value, current).state.exercises[k]
                == Load(store, current).state.exercises[k]
  {
    var saved := Record(store, key, performed, current).value.value;
    assert Settled(saved, current);
    LoadAfterSave(saved, current);
  }
}
