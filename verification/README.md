# Training scheduler core, modelled in Dafny

This project models the decision core of a single-user training scheduler. It keeps one persisted
training state and, for a given day, sorts a fixed catalog of nine exercises into four lists:

- must do today;
- optional today;
- blocked by the CNS (central-nervous-system) cooldown;
- not ready because of the minimum rest.

It also warns when the completion log has a gap of two days or more. The model has these parts:

- `Catalog`: the nine exercise definitions. Each has a weekly target, a minimal rest in hours and a
  CNS level (low, medium or high). Catalog order matters because every output list follows it.
- `State`: the training state. It holds an ISO-week stamp and a map from exercise key to a runtime
  record (last done day, sessions this week). The module also has the default state, the repair
  that adds missing catalog keys, and the weekly rollover of the counters.
- `Store`: the persisted file as an abstract cell, `Option<TrainingState>`. `Load` creates and
  writes the default state on first use. Otherwise it repairs and rolls over the stored state in
  memory, without writing. `Save` overwrites the cell.
- `Recorder`: records one completed session. It validates the key, then loads, updates one entry
  and saves.
- `Engine`: the recommendation. It has both a functional definition (`Recommend`) and the
  sequential scan the program performs (`RecommendationsForToday`), and proves the two equal.

Dates are whole day numbers. "Today" and the current ISO (year, week) pair are parameters.

The program's help text promises not to schedule heavy CNS exercises on two days in a row
(training_scheduler_bot.py:108). The engine implements this narrowly: it compares only the latest
high-CNS date with yesterday, so a high-CNS session dated today lifts the block. The model follows
the code. `Engine.HighSessionYesterdayBlocks` proves that a high-CNS session yesterday blocks every
high-CNS exercise when no high-CNS session is dated today or later. `Engine.LaterHighSessionLiftsBlock`
proves the other case.

These source quirks are modelled as written:

- recording overwrites the last date even when the new date is earlier;
- recording raises the current stored week's counter whatever week the date falls in;
- loading does not save after a rollover.

## Model

| member | source | states |
|---|---|---|
| Catalog.CatalogWellFormed | training_scheduler_json_logic.py:34-107 | the catalog has nine entries with distinct keys, every weekly target is positive, no rest exceeds 72 hours, and at least one entry is high-CNS |
| State.DefaultState | training_scheduler_json_logic.py:120-137 | the initial state has exactly the catalog keys, every entry never done with a zero counter, and both stamp fields written with the current ISO year and week |
| State.DefaultStateIsSettled | training_scheduler_json_logic.py:120-164 | repair followed by rollover in the same week leaves the default state unchanged |
| State.AddMissing | training_scheduler_json_logic.py:142-147 | the scan over the catalog yields exactly the old keys plus the catalog keys, keeps every existing record as it was, and gives every added key a fresh record |
| State.Repair | training_scheduler_json_logic.py:140-147 | after repair the state covers the catalog, existing records and the stamp are untouched, and only catalog keys that were missing are added, as fresh records |
| State.RepairIdempotent | training_scheduler_json_logic.py:140-147 | repairing twice equals repairing once, and a state that already covers the catalog is left unchanged |
| State.EffectiveStamp | training_scheduler_json_logic.py:155-156 | each stamp field present in the stored metadata is read as stored and each missing one as the current value; a full current stamp reads as the current week |
| State.Rollover | training_scheduler_json_logic.py:150-164 | with the stored stamp (missing fields read as current) equal to the current week the state is unchanged; otherwise every counter is 0 and the stamp is the current week; keys and last dates never change |
| State.RolloverIdempotent | training_scheduler_json_logic.py:150-164 | a second rollover in the same week changes nothing |
| State.MissingStampNeverResets | training_scheduler_json_logic.py:155-156 | a state with no stamp fields is never reset, because each missing field defaults to the current value |
| State.NewWeekZeroesCounters | training_scheduler_json_logic.py:158-164 | moving from one stamped week into a different one zeroes every counter, keeps every last date and restamps with the current week |
| Store.Load | training_scheduler_json_logic.py:167-178 | the loaded state covers the catalog and carries the current week; an empty cell gets the zeroed default, stamped with the current week, written and returned; a full cell is not written, keeps its keys plus the catalog keys and every stored last date, and every catalog key the cell lacked comes back as a fresh record; if its stamp differs from the current week every counter is 0 and the stamp is the current week, otherwise every stored record and the metadata come back unchanged |
| Store.LoadAfterSave | training_scheduler_json_logic.py:167-183 | a settled state that is saved and loaded again in the same week comes back unchanged |
| Store.LoadTwiceSameWeek | training_scheduler_json_logic.py:167-178 | loading twice in one week gives the same state whether or not the first result was saved, so a week's counters are zeroed at most once |
| Recorder.Record | training_scheduler_json_logic.py:188-199 | an unknown key fails, and only then; a known key's record becomes (given date, loaded counter + 1) even when the date is earlier or in another week; every other record and the stamp stay as loaded, and the result is saved |
| Recorder.RecordThenLoad | training_scheduler_json_logic.py:188-199 | after recording, a load in the same week shows the recorded date, exactly one more session than before, and every other exercise unchanged |
| Engine.LastAnyTrainingDate | training_scheduler_json_logic.py:204-218 | the loop over every stored record returns the greatest set date, or None exactly when no record has a date |
| Engine.LatestHighDate | training_scheduler_json_logic.py:221-240 | the scan over the catalog returns the greatest set date among high-CNS entries only, or None exactly when none of them has a date |
| Engine.LatestOf | training_scheduler_json_logic.py:250-253 | the latest logged day that the gap check compares with today is the greatest of the set dates, or None exactly when no date is set |
| Engine.HighCnsYesterday | training_scheduler_json_logic.py:262-264 | the global flag is set exactly when yesterday is one of the high-CNS catalog dates and no high-CNS catalog date is today or later |
| Engine.HoursSinceLast | training_scheduler_json_logic.py:282-290 | a dated record gives whole days times 24, negative exactly when the date is in the future; a record without a usable date gives hours that meet every catalog rest |
| Engine.Classify | training_scheduler_json_logic.py:292-307 | blocked iff high-CNS with the flag set; otherwise not ready iff the hours fall short of the minimal rest; otherwise must-do iff fewer sessions than the weekly target were done; optional in the remaining case |
| Engine.GapWarningFor | training_scheduler_json_logic.py:252-259 | a warning is raised iff there is a latest date and it is at least two days before today; it carries that date and the day difference |
| Engine.Recommend | training_scheduler_json_logic.py:245-315 | the functional engine lists nothing as CNS-blocked unless the flag is set, and a gap warning it raises names a logged date at least two days back |
| Engine.KeysIn | training_scheduler_json_logic.py:273-307 | a key is in a bucket's list exactly when some catalog entry with that key is classified into that bucket; the list is no longer than the catalog |
| Engine.ClassifyAll | training_scheduler_json_logic.py:266-307 | the single pass that appends each key to one of four lists produces, for every bucket, exactly the catalog-ordered list of the keys in that bucket |
| Engine.RecommendationsForToday | training_scheduler_json_logic.py:245-315 | the sequential engine (latest-date scans, gap check, classification loop) returns exactly the functional recommendation |
| Engine.RecommendToday | training_scheduler_json_logic.py:245-315 | recommending loads the cell first, with the load's write-on-first-use; from an empty cell every catalog key is a must-do in catalog order, the other lists are empty and there is no warning |
| Engine.BucketsPartitionCatalog | training_scheduler_json_logic.py:273-307 | every catalog key is in the list of its own bucket and in no other list, every listed key is a catalog key, and the four list lengths add up to the catalog size |
| Engine.BucketsInCatalogOrder | training_scheduler_json_logic.py:273-307 | each of the four lists follows catalog order and so holds no duplicates |
| Engine.GlobalCnsBlock | training_scheduler_json_logic.py:261-298 | the blocked list is all high-CNS keys in catalog order when the latest high-CNS date is yesterday, and empty otherwise, whatever each exercise's own history |
| Engine.HighSessionYesterdayBlocks | training_scheduler_json_logic.py:262-298 | a high-CNS session yesterday, with no high-CNS session dated today or later, blocks every high-CNS exercise |
| Engine.LaterHighSessionLiftsBlock | training_scheduler_json_logic.py:262-264 | a high-CNS session dated today or later empties the blocked list, even when another high-CNS exercise was done yesterday |
| Engine.ClassificationPrecedence | training_scheduler_json_logic.py:279-307 | for each catalog exercise: blocked iff high-CNS and the flag is set; otherwise not-ready iff hours since last < minimal rest; otherwise must-do iff count < target; else optional |
| Engine.NeverDonePassesRestGate | training_scheduler_json_logic.py:282-292 | a catalog exercise with no usable last date is never in the not-ready-by-rest list |
| Engine.FreshStateAllMustDo | training_scheduler_json_logic.py:282-305 | on the default state every catalog key is a must-do, in catalog order; the other three lists are empty and there is no gap warning |
| Engine.GapWarningIff | training_scheduler_json_logic.py:249-259 | a warning is present iff some date is set and even the latest one is at least two days back; it carries that latest date and the gap in days |

## Left out

- File I/O is not modelled: JSON serialization, the file-existence test, `open` and directory
  creation (training_scheduler_json_logic.py:18-26, :168-183). The store is an abstract cell, and a
  write replaces the cell.
- Malformed persisted content is not modelled; a cell here always holds a well-typed state. In the
  source, invalid JSON raises a decode error on load (:174). Valid JSON of the wrong shape fails
  later with an uncaught `TypeError`: an integer date at :213 or :286, a string counter at :197 or
  :293.
- A null or non-integer stamp field is not modelled. A stamp field is either an integer or absent.
- A missing `exercises` object is modelled as an empty map, which is what `setdefault` produces.
- Negative counters from a hand-edited file are not modelled. The counter is a `nat`, and a missing
  counter reads as 0, as every reader of the field defaults it.
- The clock, the Europe/Warsaw time zone and `isocalendar()` are not modelled
  (training_scheduler_json_logic.py:112-115). Today's day number and the current ISO (year, week)
  are parameters.
- The source reads the clock separately for the default state and for the rollover. The model
  uses one `current` week per operation.
- Parsing of "YYYY-MM-DD" strings is not modelled. A last date is an `Option<int>`; null, empty and
  unparseable strings are all `None`, which is how every reader treats them.
- Hours are integers rather than floats. Whole days times 24 is exact for any realistic date, and
  the never-done sentinel of one million hours is kept as `Engine.NeverDoneHours`.
- Display names, descriptions and the wording of the gap warning are not modelled. The warning is
  `GapWarning(lastDate, daysSince)`.
- The lost-update race between concurrent load/save pairs is not modelled; concurrency is outside
  the model.
- training_scheduler_bot.py is not part of this model: the chat handlers, alias lookup,
  conversation steps, daily reminder job and message formatting.
