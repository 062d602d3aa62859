/**
 * The recommendation engine: from a loaded state and today's day number it
 * puts every catalog exercise into exactly one of four lists — CNS-blocked,
 * not ready by rest, must do, optional — and warns when the log has a gap.
 */
module Engine {
  import opened Wrappers
  import Catalog
  import opened State
  import opened Store

  datatype Bucket = MustDo | Optional | CnsBlocked | NotReadyByRest

  /** A log-gap warning: the last logged day and how many days ago it was. */
  datatype GapWarning = GapWarning(lastDate: int, daysSince: int)

  datatype Recommendation = Recommendation(
    mustDoToday: seq<string>,
    optionalToday: seq<string>,
    cnsBlockedToday: seq<string>,
    notReadyByRest: seq<string>,
    logGapWarning: Option<GapWarning>)

  /** The hours credited to an exercise that has no usable last date. */
  const NeverDoneHours: int := 1_000_000

  /** A gap of this many days since the last logged session raises the warning. */
  const GapWarningDays: int := 2

  const HoursPerDay: int := 24

  /** The list of `rec` that holds bucket `b`. */
  function ListOf(rec: Recommendation, b: Bucket): seq<string> {
    match b
    case MustDo => rec.mustDoToday
    case Optional => rec.optionalToday
    case CnsBlocked => rec.cnsBlockedToday
    case NotReadyByRest => rec.notReadyByRest
  }

  /** The runtime record of `key`, or a fresh one when the state lacks it. */
  function RuntimeOf(m: map<string, Runtime>, key: string): Runtime {
    if key in m then m[key] else Fresh
  }

  // ----- latest dates -----

  /** `latest` is the greatest of `dates`, or `None` exactly when there is none. */
  predicate IsLatest(dates: set<int>, latest: Option<int>) {
    && (latest.None? <==> dates == {})
    && (latest.Some? ==> latest.value in dates && forall d :: d in dates ==> d <= latest.value)
  }

  /** The set dates of the records of `m` whose keys are in `ks`. */
  function DatesOf(m: map<string, Runtime>, ks: set<string>): set<int> {
    set k | k in ks && k in m && m[k].lastDone.Some? :: m[k].lastDone.value
  }

  /** Every set date in the state, catalog keys or not. */
  function AllDates(m: map<string, Runtime>): set<int> {
    DatesOf(m, m.Keys)
  }

  /** The set dates of the high-CNS entries of `defs`. */
  function HighDates(defs: seq<Catalog.ExerciseDefinition>, m: map<string, Runtime>): set<int> {
    set i | 0 <= i < |defs| && defs[i].cnsLevel == Catalog.High && RuntimeOf(m, defs[i].key).lastDone.Some?
      :: RuntimeOf(m, defs[i].key).lastDone.value
  }

  /** One step of the running maximum: a strictly later date replaces the current one. */
  function Later(latest: Option<int>, d: int): Option<int> {
    if latest.None? || d > latest.value then Some(d) else latest
  }

  lemma LaterExtends(dates: set<int>, latest: Option<int>, d: int)
    requires IsLatest(dates, latest)
    ensures IsLatest(dates + {d}, Later(latest, d))
  {
  }

  lemma {:induction false} MaxExists(dates: set<int>)
    requires dates != {}
    ensures exists x :: x in dates && forall y :: y in dates ==> y <= x
    decreases |dates|
  {
    var x := PickOne(dates);
    var rest := dates - {x};
    assert forall y :: y in dates ==> y == x || y in rest;
    if rest == {} {
      assert forall y :: y in dates ==> y <= x;
    } else {
      MaxExists(rest);
      var m :| m in rest && forall y :: y in rest ==> y <= m;
      if x < m {
        assert m in dates && forall y :: y in dates ==> y <= m;
      } else {
        assert forall y :: y in dates ==> y <= x;
      }
    }
  }

  lemma PickOne(dates: set<int>) returns (x: int)
    requires dates != {}
    ensures x in dates
  {
    // Spelled out because the solver does not derive an element from `dates != {}` unaided.
    if forall y :: y !in dates {
      assert false;
    }
    x :| x in dates;
  }

  /** The greatest of a finite set of dates. */
  function LatestOf(dates: set<int>): (r: Option<int>)
    ensures IsLatest(dates, r)
  {
    if dates == {} then None
    else
      MaxExists(dates);
      var x :| x in dates && forall y :: y in dates ==> y <= x;
      Some(x)
  }

  lemma LatestUnique(dates: set<int>, a: Option<int>, b: Option<int>)
    requires IsLatest(dates, a) && IsLatest(dates, b)
    ensures a == b
  {
    if a.Some? {
      assert a.value <= b.value && b.value <= a.value;
    }
  }

  /**
   * The latest date among the high-CNS entries of `defs`, scanned in
   * order; entries without a usable date are skipped.
   */
  function LatestHighDate(defs: seq<Catalog.ExerciseDefinition>, m: map<string, Runtime>): (r: Option<int>)
    ensures IsLatest(HighDates(defs, m), r)
    decreases |defs|
  {
    if |defs| == 0 then None
    else
      var pre := defs[..|defs| - 1];
      var last := defs[|defs| - 1];
      var latest := LatestHighDate(pre, m);
      HighDatesSnoc(defs, m);
      if last.cnsLevel != Catalog.High then latest
      else match RuntimeOf(m, last.key).lastDone
        case None => latest
        case Some(d) => LaterExtends(HighDates(pre, m), latest, d); Later(latest, d)
  }

  lemma HighDatesSnoc(defs: seq<Catalog.ExerciseDefinition>, m: map<string, Runtime>)
    requires |defs| > 0
    ensures var last := defs[|defs| - 1];
            var lastDone := RuntimeOf(m, last.key).lastDone;
            HighDates(defs, m) == HighDates(defs[..|defs| - 1], m)
              + (if last.cnsLevel == Catalog.High && lastDone.Some? then {lastDone.value} else {})
  {
    var pre := defs[..|defs| - 1];
    assert forall i :: 0 <= i < |pre| ==> pre[i] == defs[i];
  }

  /** The method form of the scan over every stored record, as a loop over the key set. */
  method LastAnyTrainingDate(m: map<string, Runtime>) returns (latest: Option<int>)
    ensures IsLatest(AllDates(m), latest)
  {
    var remaining := m.Keys;
    latest := None;
    while remaining != {}
      invariant remaining <= m.Keys
      invariant IsLatest(DatesOf(m, m.Keys - remaining), latest)
      decreases |remaining|
    {
      var k :| k in remaining;
      var seen := m.Keys - remaining;
      assert m.Keys - (remaining - {k}) == seen + {k};
      match m[k].lastDone {
        case None =>
          assert DatesOf(m, seen + {k}) == DatesOf(m, seen);
        case Some(d) =>
          assert DatesOf(m, seen + {k}) == DatesOf(m, seen) + {d};
          LaterExtends(DatesOf(m, seen), latest, d);
          latest := Later(latest, d);
      }
      remaining := remaining - {k};
    }
    assert m.Keys - remaining == m.Keys;
  }

  // ----- classification -----

  /** Hours since the last session, whole days times 24; the sentinel when never done. */
  function HoursSinceLast(rt: Runtime, today: int): (h: int)
    ensures rt.lastDone.None? ==>
              forall i :: 0 <= i < |Catalog.Exercises| ==> h >= Catalog.Exercises[i].minimalRestHours
    ensures rt.lastDone.Some? ==> h % HoursPerDay == 0 && h / HoursPerDay == today - rt.lastDone.value
    ensures rt.lastDone.Some? ==> (h < 0 <==> rt.lastDone.value > today)
  {
    Catalog.CatalogWellFormed();
    match rt.lastDone
    case None => NeverDoneHours
    case Some(d) => (today - d) * HoursPerDay
  }

  /** Sessions still owed this week: `max(0, target - done)`. */
  function RemainingThisWeek(def: Catalog.ExerciseDefinition, rt: Runtime): nat {
    if def.timesPerWeekTarget > rt.timesThisWeek then def.timesPerWeekTarget - rt.timesThisWeek else 0
  }

  /** The bucket of one exercise: CNS block, then rest gate, then quota. */
  function Classify(def: Catalog.ExerciseDefinition, rt: Runtime, highYesterday: bool, today: int): (b: Bucket)
    ensures b == CnsBlocked <==> def.cnsLevel == Catalog.High && highYesterday
    ensures b == NotReadyByRest <==>
              !(def.cnsLevel == Catalog.High && highYesterday) && HoursSinceLast(rt, today) < def.minimalRestHours
    ensures b == MustDo <==>
              && !(def.cnsLevel == Catalog.High && highYesterday)
              && HoursSinceLast(rt, today) >= def.minimalRestHours
              && rt.timesThisWeek < def.timesPerWeekTarget
  {
    if def.cnsLevel == Catalog.High && highYesterday then CnsBlocked
    else if HoursSinceLast(rt, today) < def.minimalRestHours then NotReadyByRest
    else if RemainingThisWeek(def, rt) > 0 then MustDo
    else Optional
  }

  /** The global flag: the latest high-CNS session in the catalog was yesterday. */
  function HighCnsYesterday(m: map<string, Runtime>, today: int): (flag: bool)
    ensures flag <==>
              (&& today - 1 in HighDates(Catalog.Exercises, m)
               && forall d :: d in HighDates(Catalog.Exercises, m) ==> d < today)
  {
    LatestHighDate(Catalog.Exercises, m) == Some(today - 1)
  }

  /** The bucket a catalog entry lands in for state `m` on day `today`. */
  function BucketOf(m: map<string, Runtime>, today: int, def: Catalog.ExerciseDefinition): Bucket {
    Classify(def, RuntimeOf(m, def.key), HighCnsYesterday(m, today), today)
  }

  /** The keys of `defs` classified into `b`, in the order of `defs`. */
  function KeysIn(defs: seq<Catalog.ExerciseDefinition>, m: map<string, Runtime>, highYesterday: bool, today: int, b: Bucket): (ks: seq<string>)
    ensures |ks| <= |defs|
    ensures forall k :: k in ks <==>
              exists i :: 0 <= i < |defs| && defs[i].key == k
                && Classify(defs[i], RuntimeOf(m, defs[i].key), highYesterday, today) == b
    decreases |defs|
  {
    if |defs| == 0 then []
    else
      var pre := defs[..|defs| - 1];
      var last := defs[|defs| - 1];
      assert forall i :: 0 <= i < |pre| ==> pre[i] == defs[i];
      KeysIn(pre, m, highYesterday, today, b)
        + (if Classify(last, RuntimeOf(m, last.key), highYesterday, today) == b then [last.key] else [])
  }

  /** The warning for a latest logged day, raised when it is two or more days back. */
  function GapWarningFor(latest: Option<int>, today: int): (w: Option<GapWarning>)
    ensures w.Some? <==> latest.Some? && today - latest.value >= GapWarningDays
    ensures w.Some? ==> w.value.lastDate == latest.value && w.value.daysSince == today - w.value.lastDate
  {
    match latest
    case None => None
    case Some(d) => if today - d >= GapWarningDays then Some(GapWarning(d, today - d)) else None
  }

  /** Today's recommendation for a loaded state. */
  function Recommend(s: TrainingState, today: int): (r: Recommendation)
    ensures r.cnsBlockedToday != [] ==> HighCnsYesterday(s.exercises, today)
    ensures r.logGapWarning.Some? ==>
              r.logGapWarning.value.lastDate in AllDates(s.exercises)
              && r.logGapWarning.value.daysSince >= GapWarningDays
  {
    var m := s.exercises;
    var high := HighCnsYesterday(m, today);
    var blocked := KeysIn(Catalog.Exercises, m, high, today, CnsBlocked);
    assert blocked != [] ==> blocked[0] in blocked;
    Recommendation(
      KeysIn(Catalog.Exercises, m, high, today, MustDo),
      KeysIn(Catalog.Exercises, m, high, today, Optional),
      blocked,
      KeysIn(Catalog.Exercises, m, high, today, NotReadyByRest),
      GapWarningFor(LatestOf(AllDates(m)), today))
  }

  /**
   * The engine as the sequential scan it is in the program: one pass over
   * the catalog appending each key to the list of its bucket.
   */
  method RecommendationsForToday(s: TrainingState, today: int) returns (rec: Recommendation)
    ensures rec == Recommend(s, today)
  {
    var m := s.exercises;
    var lastAny := LastAnyTrainingDate(m);
    LatestUnique(AllDates(m), lastAny, LatestOf(AllDates(m)));
    var warning := GapWarningFor(lastAny, today);
    var high := LatestHighDate(Catalog.Exercises, m) == Some(today - 1);

    var must, optional, blocked, resting := ClassifyAll(Catalog.Exercises, m, high, today);
    rec := Recommendation(must, optional, blocked, resting, warning);
  }

  /** One pass over `defs`, appending each key to the list of its bucket. */
  method ClassifyAll(defs: seq<Catalog.ExerciseDefinition>, m: map<string, Runtime>, high: bool, today: int)
    returns (must: seq<string>, optional: seq<string>, blocked: seq<string>, resting: seq<string>)
    ensures must == KeysIn(defs, m, high, today, MustDo)
    ensures optional == KeysIn(defs, m, high, today, Optional)
    ensures blocked == KeysIn(defs, m, high, today, CnsBlocked)
    ensures resting == KeysIn(defs, m, high, today, NotReadyByRest)
  {
    must, optional, blocked, resting := [], [], [], [];
    var i := 0;
    while i < |defs|
      invariant 0 <= i <= |defs|
      invariant must == KeysIn(defs[..i], m, high, today, MustDo)
      invariant optional == KeysIn(defs[..i], m, high, today, Optional)
      invariant blocked == KeysIn(defs[..i], m, high, today, CnsBlocked)
      invariant resting == KeysIn(defs[..i], m, high, today, NotReadyByRest)
    {
      var def := defs[i];
      assert defs[..i + 1][..i] == defs[..i];
      var rt := RuntimeOf(m, def.key);
      if def.cnsLevel == Catalog.High && high {
        blocked := blocked + [def.key];
      } else if HoursSinceLast(rt, today) < def.minimalRestHours {
        resting := resting + [def.key];
      } else if RemainingThisWeek(def, rt) > 0 {
        must := must + [def.key];
      } else {
        optional := optional + [def.key];
      }
      i := i + 1;
    }
    assert defs[..i] == defs;
  }

  /** Loads the cell for week `current` and recommends for `today`. */
  method RecommendToday(store: Store, today: int, current: IsoWeek) returns (rec: Recommendation, store': Store)
    ensures store' == Load(store, current).store
    ensures rec == Recommend(Load(store, current).state, today)
    ensures store.None? ==> rec == Recommendation(Catalog.KeysOf(Catalog.Exercises), [], [], [], None)
  {
    var loaded := Load(store, current);
    rec := RecommendationsForToday(loaded.state, today);
    store' := loaded.store;
    if store.None? {
      FreshStateAllMustDo(current, today);
    }
  }

  // ----- properties -----

  /** Under distinct keys, an entry of `defs` is listed under exactly its own bucket. */
  lemma KeysInPartition(defs: seq<Catalog.ExerciseDefinition>, m: map<string, Runtime>, high: bool, today: int)
    requires Catalog.DistinctKeys(defs)
    ensures forall i, b :: 0 <= i < |defs| ==>
              (defs[i].key in KeysIn(defs, m, high, today, b) <==>
               b == Classify(defs[i], RuntimeOf(m, defs[i].key), high, today))
  {
  }

  /** Every catalog entry is in the list of its own bucket and in no other list. */
  lemma BucketsPartitionCatalog(s: TrainingState, today: int)
    ensures forall i, b :: 0 <= i < |Catalog.Exercises| ==>
              (Catalog.Exercises[i].key in ListOf(Recommend(s, today), b) <==>
               b == BucketOf(s.exercises, today, Catalog.Exercises[i]))
    ensures forall b, k :: k in ListOf(Recommend(s, today), b) ==> k in Catalog.CatalogKeys
    ensures |Recommend(s, today).mustDoToday| + |Recommend(s, today).optionalToday|
          + |Recommend(s, today).cnsBlockedToday| + |Recommend(s, today).notReadyByRest| == |Catalog.Exercises|
  {
    Catalog.CatalogWellFormed();
    var m := s.exercises;
    var high := HighCnsYesterday(m, today);
    var rec := Recommend(s, today);
    assert forall b :: ListOf(rec, b) == KeysIn(Catalog.Exercises, m, high, today, b);
    KeysInPartition(Catalog.Exercises, m, high, today);
    KeysInAreKeys(Catalog.Exercises, m, high, today);
    BucketSizesSum(Catalog.Exercises, m, high, today);
  }

  lemma KeysInAreKeys(defs: seq<Catalog.ExerciseDefinition>, m: map<string, Runtime>, high: bool, today: int)
    ensures forall b, k :: k in KeysIn(defs, m, high, today, b) ==> k in Catalog.KeySet(defs)
  {
    forall b, k | k in KeysIn(defs, m, high, today, b)
      ensures k in Catalog.KeySet(defs)
    {
      var i :| 0 <= i < |defs| && defs[i].key == k
        && Classify(defs[i], RuntimeOf(m, defs[i].key), high, today) == b;
      assert defs[i] in defs;
    }
  }

  lemma {:induction false} BucketSizesSum(defs: seq<Catalog.ExerciseDefinition>, m: map<string, Runtime>, high: bool, today: int)
    ensures |KeysIn(defs, m, high, today, MustDo)| + |KeysIn(defs, m, high, today, Optional)|
          + |KeysIn(defs, m, high, today, CnsBlocked)| + |KeysIn(defs, m, high, today, NotReadyByRest)| == |defs|
    decreases |defs|
  {
    if |defs| > 0 {
      BucketSizesSum(defs[..|defs| - 1], m, high, today);
    }
  }

  /**
   * Keys listed in the order of `defs`: of two listed keys, the earlier one
   * is defined earlier. This also rules out duplicates.
   */
  predicate InOrderOf(ks: seq<string>, defs: seq<Catalog.ExerciseDefinition>) {
    forall j, j', p, p' ::
      (0 <= j < j' < |ks| && 0 <= p < |defs| && 0 <= p' < |defs|
       && ks[j] == defs[p].key && ks[j'] == defs[p'].key) ==> p < p'
  }

  lemma {:induction false} KeysInOrdered(defs: seq<Catalog.ExerciseDefinition>, m: map<string, Runtime>, high: bool, today: int, b: Bucket)
    requires Catalog.DistinctKeys(defs)
    ensures InOrderOf(KeysIn(defs, m, high, today, b), defs)
    decreases |defs|
  {
    if |defs| > 0 {
      var pre := defs[..|defs| - 1];
      var L := |defs| - 1;
      assert forall i :: 0 <= i < |pre| ==> pre[i] == defs[i];
      KeysInOrdered(pre, m, high, today, b);
      var ksPre := KeysIn(pre, m, high, today, b);
      var ks := KeysIn(defs, m, high, today, b);
      assert ks[..|ksPre|] == ksPre;
      forall j, j', p, p' | 0 <= j < j' < |ks| && 0 <= p < |defs| && 0 <= p' < |defs|
          && ks[j] == defs[p].key && ks[j'] == defs[p'].key
        ensures p < p'
      {
        assert ks[j] == ksPre[j];
        assert ks[j] in ksPre;
        var q :| 0 <= q < |pre| && pre[q].key == ks[j]
          && Classify(pre[q], RuntimeOf(m, pre[q].key), high, today) == b;
        assert p == q;
        if j' < |ksPre| {
          assert ks[j'] == ksPre[j'];
          assert ks[j'] in ksPre;
          var q' :| 0 <= q' < |pre| && pre[q'].key == ks[j']
            && Classify(pre[q'], RuntimeOf(m, pre[q'].key), high, today) == b;
          assert p' == q';
        } else {
          assert ks[j'] == defs[L].key;
          assert p' == L;
        }
      }
    }
  }

  /** Each of the four lists follows catalog order. */
  lemma BucketsInCatalogOrder(s: TrainingState, today: int)
    ensures forall b :: InOrderOf(ListOf(Recommend(s, today), b), Catalog.Exercises)
  {
    Catalog.CatalogWellFormed();
    var m := s.exercises;
    var high := HighCnsYesterday(m, today);
    forall b
      ensures InOrderOf(ListOf(Recommend(s, today), b), Catalog.Exercises)
    {
      assert ListOf(Recommend(s, today), b) == KeysIn(Catalog.Exercises, m, high, today, b);
      KeysInOrdered(Catalog.Exercises, m, high, today, b);
    }
  }

  /** The high-CNS keys of `defs`, in order. */
  function HighKeys(defs: seq<Catalog.ExerciseDefinition>): seq<string>
    decreases |defs|
  {
    if |defs| == 0 then []
    else
      var last := defs[|defs| - 1];
      HighKeys(defs[..|defs| - 1]) + (if last.cnsLevel == Catalog.High then [last.key] else [])
  }

  lemma {:induction false} CnsBlockedAreHighKeys(defs: seq<Catalog.ExerciseDefinition>, m: map<string, Runtime>, high: bool, today: int)
    ensures KeysIn(defs, m, high, today, CnsBlocked) == (if high then HighKeys(defs) else [])
    decreases |defs|
  {
    if |defs| > 0 {
      CnsBlockedAreHighKeys(defs[..|defs| - 1], m, high, today);
    }
  }

  /**
   * The CNS block is global: when the latest high-CNS session was
   * yesterday every high-CNS exercise is blocked, whatever its own
   * history, and otherwise none is.
   */
  lemma GlobalCnsBlock(s: TrainingState, today: int)
    ensures Recommend(s, today).cnsBlockedToday
              == (if HighCnsYesterday(s.exercises, today) then HighKeys(Catalog.Exercises) else [])
  {
    CnsBlockedAreHighKeys(Catalog.Exercises, s.exercises, HighCnsYesterday(s.exercises, today), today);
  }

  /**
   * A high-CNS session yesterday blocks every high-CNS exercise today,
   * provided no high-CNS session is dated today or later.
   */
  lemma HighSessionYesterdayBlocks(s: TrainingState, today: int, i: int)
    requires 0 <= i < |Catalog.Exercises| && Catalog.Exercises[i].cnsLevel == Catalog.High
    requires RuntimeOf(s.exercises, Catalog.Exercises[i].key).lastDone == Some(today - 1)
    requires forall j :: 0 <= j < |Catalog.Exercises| && Catalog.Exercises[j].cnsLevel == Catalog.High
               && RuntimeOf(s.exercises, Catalog.Exercises[j].key).lastDone.Some?
               ==> RuntimeOf(s.exercises, Catalog.Exercises[j].key).lastDone.value < today
    ensures Recommend(s, today).cnsBlockedToday == HighKeys(Catalog.Exercises)
  {
    var m := s.exercises;
    var dates := HighDates(Catalog.Exercises, m);
    assert today - 1 in dates;
    assert forall d :: d in dates ==> d <= today - 1;
    assert HighCnsYesterday(m, today);
    GlobalCnsBlock(s, today);
  }

  /**
   * A high-CNS session dated today or later lifts the block, even when
   * another high-CNS exercise was done yesterday: the flag compares only
   * the latest high-CNS date with yesterday.
   */
  lemma LaterHighSessionLiftsBlock(s: TrainingState, today: int, i: int)
    requires 0 <= i < |Catalog.Exercises| && Catalog.Exercises[i].cnsLevel == Catalog.High
    requires RuntimeOf(s.exercises, Catalog.Exercises[i].key).lastDone.Some?
    requires RuntimeOf(s.exercises, Catalog.Exercises[i].key).lastDone.value >= today
    ensures Recommend(s, today).cnsBlockedToday == []
  {
    var m := s.exercises;
    assert RuntimeOf(m, Catalog.Exercises[i].key).lastDone.value in HighDates(Catalog.Exercises, m);
    assert !HighCnsYesterday(m, today);
    GlobalCnsBlock(s, today);
  }

  /** The CNS gate is closed for `def`: it is high-CNS and the global flag is set. */
  predicate CnsGateCloses(s: TrainingState, today: int, def: Catalog.ExerciseDefinition) {
    def.cnsLevel == Catalog.High && HighCnsYesterday(s.exercises, today)
  }

  /** The rest gate is open for `def`: enough hours have passed since its last session. */
  predicate RestGateOpens(s: TrainingState, today: int, def: Catalog.ExerciseDefinition) {
    HoursSinceLast(RuntimeOf(s.exercises, def.key), today) >= def.minimalRestHours
  }

  /**
   * The gate precedence, read off the lists: the CNS block wins over
   * everything, then the rest gate, and only then the weekly quota.
   */
  lemma ClassificationPrecedence(s: TrainingState, today: int, i: int)
    requires 0 <= i < |Catalog.Exercises|
    ensures (CnsGateCloses(s, today, Catalog.Exercises[i]) <==>
             Catalog.Exercises[i].key in Recommend(s, today).cnsBlockedToday)
    ensures (!CnsGateCloses(s, today, Catalog.Exercises[i]) && !RestGateOpens(s, today, Catalog.Exercises[i]) <==>
             Catalog.Exercises[i].key in Recommend(s, today).notReadyByRest)
    ensures (!CnsGateCloses(s, today, Catalog.Exercises[i]) && RestGateOpens(s, today, Catalog.Exercises[i])
               && RuntimeOf(s.exercises, Catalog.Exercises[i].key).timesThisWeek < Catalog.Exercises[i].timesPerWeekTarget <==>
             Catalog.Exercises[i].key in Recommend(s, today).mustDoToday)
    ensures (!CnsGateCloses(s, today, Catalog.Exercises[i]) && RestGateOpens(s, today, Catalog.Exercises[i])
               && RuntimeOf(s.exercises, Catalog.Exercises[i].key).timesThisWeek >= Catalog.Exercises[i].timesPerWeekTarget <==>
             Catalog.Exercises[i].key in Recommend(s, today).optionalToday)
  {
    BucketsPartitionCatalog(s, today);
    var rec := Recommend(s, today);
    assert ListOf(rec, CnsBlocked) == rec.cnsBlockedToday;
    assert ListOf(rec, NotReadyByRest) == rec.notReadyByRest;
    assert ListOf(rec, MustDo) == rec.mustDoToday;
    assert ListOf(rec, Optional) == rec.optionalToday;
  }

  /** An exercise with no usable last date always passes the rest gate. */
  lemma NeverDonePassesRestGate(s: TrainingState, today: int, i: int)
    requires 0 <= i < |Catalog.Exercises|
    requires RuntimeOf(s.exercises, Catalog.Exercises[i].key).lastDone.None?
    ensures Catalog.Exercises[i].key !in Recommend(s, today).notReadyByRest
  {
    Catalog.CatalogWellFormed();
    ClassificationPrecedence(s, today, i);
  }

  lemma {:induction false} FreshDefsAllMustDo(defs: seq<Catalog.ExerciseDefinition>, m: map<string, Runtime>, today: int)
    requires forall i :: 0 <= i < |defs| ==> defs[i].timesPerWeekTarget > 0 && defs[i].minimalRestHours <= NeverDoneHours
    requires forall i :: 0 <= i < |defs| ==> RuntimeOf(m, defs[i].key) == Fresh
    ensures KeysIn(defs, m, false, today, MustDo) == Catalog.KeysOf(defs)
    ensures KeysIn(defs, m, false, today, Optional) == []
    ensures KeysIn(defs, m, false, today, CnsBlocked) == []
    ensures KeysIn(defs, m, false, today, NotReadyByRest) == []
    decreases |defs|
  {
    if |defs| > 0 {
      var pre := defs[..|defs| - 1];
      assert forall i :: 0 <= i < |pre| ==> pre[i] == defs[i];
      FreshDefsAllMustDo(pre, m, today);
    }
  }

  /**
   * With a freshly initialised state every exercise must be done today:
   * every target is positive, nothing is blocked or resting, and nothing
   * is logged so there is no gap warning.
   */
  lemma FreshStateAllMustDo(current: IsoWeek, today: int)
    ensures Recommend(DefaultState(current), today)
              == Recommendation(Catalog.KeysOf(Catalog.Exercises), [], [], [], None)
  {
    Catalog.CatalogWellFormed();
    var s := DefaultState(current);
    var m := s.exercises;
    forall i | 0 <= i < |Catalog.Exercises|
      ensures RuntimeOf(m, Catalog.Exercises[i].key) == Fresh
    {
      assert Catalog.Exercises[i] in Catalog.Exercises;
    }
    assert HighDates(Catalog.Exercises, m) == {};
    assert !HighCnsYesterday(m, today);
    assert AllDates(m) == {};
    FreshDefsAllMustDo(Catalog.Exercises, m, today);
  }

  /**
   * The gap warning is raised exactly when some date is logged and even the
   * latest one is two or more days back; it names that date and the gap.
   */
  lemma GapWarningIff(s: TrainingState, today: int)
    ensures (Recommend(s, today).logGapWarning.Some? <==>
             AllDates(s.exercises) != {} && forall d :: d in AllDates(s.exercises) ==> today - d >= GapWarningDays)
    ensures Recommend(s, today).logGapWarning.Some? ==>
              && Recommend(s, today).logGapWarning.value.lastDate in AllDates(s.exercises)
              && (forall d :: d in AllDates(s.exercises) ==> d <= Recommend(s, today).logGapWarning.value.lastDate)
              && Recommend(s, today).logGapWarning.value.daysSince
                   == today - Recommend(s, today).logGapWarning.value.lastDate
  {
  }
}
