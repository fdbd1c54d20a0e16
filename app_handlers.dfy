/** The dataset handlers of the authenticated app (App.tsx:198-311). Each
    takes the current dataset and returns the next one; every field a handler
    does not mention is left as it was. */
module AppHandlers {
  import opened Model
  import opened Text

  /** At most one daily log per calendar date. */
  predicate UniqueDates(logs: seq<DailyLog>) {
    forall i, j :: 0 <= i < j < |logs| ==> logs[i].date != logs[j].date
  }

  // ---- handleUpdateLog ----

  function OtherDates(logs: seq<DailyLog>, date: int): seq<DailyLog> {
    Filter((l: DailyLog) => l.date != date, logs)
  }

  /** `handleUpdateLog`: every log of another date, in order, then the
      updated log. */
  function UpdateLog(d: Dataset, updated: DailyLog): (r: Dataset)
    ensures r.(logs := d.logs) == d
    ensures |r.logs| > 0 && r.logs[|r.logs| - 1] == updated
    ensures r.logs[..|r.logs| - 1] == OtherDates(d.logs, updated.date)
  {
    var others := OtherDates(d.logs, updated.date);
    assert (others + [updated])[..|others|] == others;
    d.(logs := others + [updated])
  }

  /** After an update there is exactly one log for its date, it is the one
      given, and every log of another date is still there. */
  lemma UpdateLogLeavesOneLogForDate(d: Dataset, updated: DailyLog, i: int)
    requires 0 <= i < |UpdateLog(d, updated).logs|
    ensures var logs := UpdateLog(d, updated).logs;
      logs[i].date == updated.date <==> i == |logs| - 1
    ensures forall l :: l in d.logs && l.date != updated.date ==> l in UpdateLog(d, updated).logs
  {
    var logs := UpdateLog(d, updated).logs;
    if i < |logs| - 1 {
      assert logs[i] in logs[..|logs| - 1];
    }
  }

  /** Updating keeps "one log per date". */
  lemma UpdateLogKeepsDatesUnique(d: Dataset, updated: DailyLog)
    requires UniqueDates(d.logs)
    ensures UniqueDates(UpdateLog(d, updated).logs)
  {
    var others := OtherDates(d.logs, updated.date);
    var logs := UpdateLog(d, updated).logs;
    FilterUniqueDates(d.logs, (l: DailyLog) => l.date != updated.date);
    assert UniqueDates(others);
    forall i, j | 0 <= i < j < |logs| ensures logs[i].date != logs[j].date {
      UpdateLogLeavesOneLogForDate(d, updated, i);
      UpdateLogLeavesOneLogForDate(d, updated, j);
      if j < |logs| - 1 {
        assert logs[i] == others[i] && logs[j] == others[j];
      }
    }
  }

  /** A filter keeps "one log per date". */
  lemma {:induction false} FilterUniqueDates(logs: seq<DailyLog>, p: DailyLog -> bool)
    requires UniqueDates(logs)
    ensures UniqueDates(Filter(p, logs))
  {
    if logs != [] {
      var tail := logs[1..];
      assert UniqueDates(tail) by {
        forall i, j | 0 <= i < j < |tail| ensures tail[i].date != tail[j].date {
          assert tail[i] == logs[i + 1] && tail[j] == logs[j + 1];
        }
      }
      FilterUniqueDates(tail, p);
      var rest := Filter(p, tail);
      if p(logs[0]) {
        var r := [logs[0]] + rest;
        forall e | e in rest ensures e.date != logs[0].date {
          assert e in tail;
          var k :| 0 <= k < |tail| && tail[k] == e;
          assert logs[k + 1] == e;
        }
        forall i, j | 0 <= i < j < |r| ensures r[i].date != r[j].date {
          if i == 0 {
            assert r[j] == rest[j - 1] && r[j] in rest;
          } else {
            assert r[i] == rest[i - 1] && r[j] == rest[j - 1];
          }
        }
      }
    }
  }

  // ---- handleUpdateWeight / handleDeleteWeight ----

  /** A timestamp the comparator uses: present and not 0. */
  predicate Stamped(e: WeightEntry) {
    e.timestamp.Some? && e.timestamp.value != 0
  }

  /** The sort comparator of `handleDeleteWeight`: `a` comes before `b` when
      it is newer, by timestamp when both carry one, by date otherwise. */
  predicate SortsBefore(a: WeightEntry, b: WeightEntry) {
    if Stamped(a) && Stamped(b) then a.timestamp.value > b.timestamp.value else a.date > b.date
  }

  /** The first element of the stable sort: the earliest entry that no
      other entry sorts before. */
  function Newest(h: seq<WeightEntry>): (r: WeightEntry)
    requires |h| > 0
    ensures r in h
  {
    if |h| == 1 then h[0]
    else
      var rest := Newest(h[1..]);
      if SortsBefore(rest, h[0]) then rest else h[0]
  }

  /** The comparator is a consistent order when all entries carry a timestamp
      or none does. */
  predicate UniformStamps(h: seq<WeightEntry>) {
    (forall i :: 0 <= i < |h| ==> Stamped(h[i])) || (forall i :: 0 <= i < |h| ==> !Stamped(h[i]))
  }

  /** Under a consistent comparator, nothing sorts before the chosen entry:
      it has the largest timestamp, or, without timestamps, the latest date. */
  lemma {:induction false} NewestIsNewest(h: seq<WeightEntry>)
    requires |h| > 0 && UniformStamps(h)
    ensures forall e :: e in h ==> !SortsBefore(e, Newest(h))
  {
    if |h| > 1 {
      var tail := h[1..];
      assert UniformStamps(tail) by {
        assert forall i :: 0 <= i < |tail| ==> tail[i] == h[i + 1];
      }
      NewestIsNewest(tail);
      assert forall e :: e in h ==> e == h[0] || e in tail by {
        assert h == [h[0]] + tail;
      }
      assert Stamped(h[0]) ==> forall e :: e in h ==> Stamped(e) by {
        if Stamped(h[0]) {
          forall e | e in h ensures Stamped(e) {
            var k :| 0 <= k < |h| && h[k] == e;
          }
        }
      }
      assert !Stamped(h[0]) ==> forall e :: e in h ==> !Stamped(e) by {
        if !Stamped(h[0]) {
          forall e | e in h ensures !Stamped(e) {
            var k :| 0 <= k < |h| && h[k] == e;
          }
        }
      }
    }
  }

  /** Ties go to the earliest entry, as in a stable sort: the chosen entry
      sits at a position before which every entry is strictly older. */
  lemma {:induction false} NewestSortsBeforeEarlier(h: seq<WeightEntry>)
    requires |h| > 0
    ensures exists k :: 0 <= k < |h| && h[k] == Newest(h) && forall j :: 0 <= j < k ==> SortsBefore(Newest(h), h[j])
  {
    if |h| == 1 {
      assert h[0] == Newest(h);
    } else {
      var tail := h[1..];
      NewestSortsBeforeEarlier(tail);
      var k :| 0 <= k < |tail| && tail[k] == Newest(tail) && forall j :: 0 <= j < k ==> SortsBefore(Newest(tail), tail[j]);
      if SortsBefore(Newest(tail), h[0]) {
        assert h[k + 1] == Newest(h);
        forall j | 0 <= j < k + 1 ensures SortsBefore(Newest(h), h[j]) {
          if j > 0 {
            assert h[j] == tail[j - 1];
          }
        }
      } else {
        assert h[0] == Newest(h);
      }
    }
  }

  /** An entry that sorts before every earlier entry is the newest. */
  lemma {:induction false} NewestOfAppended(h: seq<WeightEntry>, x: WeightEntry)
    requires forall e :: e in h ==> SortsBefore(x, e)
    ensures Newest(h + [x]) == x
  {
    if h != [] {
      assert (h + [x])[1..] == h[1..] + [x];
      NewestOfAppended(h[1..], x);
    }
  }

  /** The entry `handleUpdateWeight` appends. The clock is read twice: once
      for the id, once for the timestamp. */
  function NewWeightEntry(newWeight: real, today: int, idTime: nat, stampTime: nat): (e: WeightEntry)
    ensures e.id == Some(DecimalString(idTime)) && e.timestamp == Some(stampTime)
    ensures e.date == today && e.weight == newWeight
  {
    WeightEntry(Some(DecimalString(idTime)), today, Some(stampTime), newWeight)
  }

  /** `handleUpdateWeight`: nothing without a profile; otherwise the profile
      takes the new weight and exactly one entry is appended to the history. */
  function UpdateWeight(d: Dataset, newWeight: real, today: int, idTime: nat, stampTime: nat): (r: Dataset)
    ensures d.profile.None? ==> r == d
    ensures d.profile.Some? ==>
      && r.profile == Some(d.profile.value.(weight := newWeight))
      && r.weightHistory == d.weightHistory + [NewWeightEntry(newWeight, today, idTime, stampTime)]
      && r.(profile := d.profile, weightHistory := d.weightHistory) == d
  {
    if d.profile.None? then d
    else d.(profile := Some(d.profile.value.(weight := newWeight)),
            weightHistory := d.weightHistory + [NewWeightEntry(newWeight, today, idTime, stampTime)])
  }

  /** `handleDeleteWeight`: nothing without a profile; otherwise every entry
      with the id goes, and the profile takes the weight of the newest entry
      left, or stays as it was when none is left. */
  function DeleteWeight(d: Dataset, id: string): (r: Dataset)
    ensures d.profile.None? ==> r == d
    ensures d.profile.Some? ==>
      && r.weightHistory == Filter((w: WeightEntry) => w.id != Some(id), d.weightHistory)
      && (forall w :: w in r.weightHistory <==> w in d.weightHistory && w.id != Some(id))
      && (r.weightHistory == [] ==> r.profile == d.profile)
      && (r.weightHistory != [] ==> r.profile == Some(d.profile.value.(weight := Newest(r.weightHistory).weight)))
      && r.(profile := d.profile, weightHistory := d.weightHistory) == d
  {
    if d.profile.None? then d
    else
      var remaining := Filter((w: WeightEntry) => w.id != Some(id), d.weightHistory);
      d.(weightHistory := remaining,
         profile := if |remaining| > 0 then Some(d.profile.value.(weight := Newest(remaining).weight)) else d.profile)
  }

  /** The two weight handlers agree: after a new, later-stamped sample, the
      profile weight is that of the newest entry in the history. */
  lemma UpdateWeightIsNewest(d: Dataset, newWeight: real, today: int, idTime: nat, stampTime: nat)
    requires d.profile.Some? && stampTime > 0
    requires forall e :: e in d.weightHistory ==> Stamped(e) && e.timestamp.value < stampTime
    ensures var r := UpdateWeight(d, newWeight, today, idTime, stampTime);
      r.profile.value.weight == Newest(r.weightHistory).weight
  {
    NewestOfAppended(d.weightHistory, NewWeightEntry(newWeight, today, idTime, stampTime));
  }

  // ---- presets and schedule ----

  /** `handleAddPresetFood`. */
  function AddPresetFood(d: Dataset, food: PresetFood): (r: Dataset)
    ensures r.presetFoods == d.presetFoods + [food] && r.(presetFoods := d.presetFoods) == d
  {
    d.(presetFoods := d.presetFoods + [food])
  }

  /** `handleDeletePresetFood`: every preset with the id goes, the others stay
      in order. */
  function DeletePresetFood(d: Dataset, id: string): (r: Dataset)
    ensures r.presetFoods == Filter((f: PresetFood) => f.id != id, d.presetFoods)
    ensures forall f :: f in r.presetFoods <==> f in d.presetFoods && f.id != id
    ensures r.(presetFoods := d.presetFoods) == d
  {
    d.(presetFoods := Filter((f: PresetFood) => f.id != id, d.presetFoods))
  }

  /** Deleting a preset just added under a fresh id undoes the addition. */
  lemma DeleteUndoesAdd(d: Dataset, food: PresetFood)
    requires forall f :: f in d.presetFoods ==> f.id != food.id
    ensures DeletePresetFood(AddPresetFood(d, food), food.id) == d
  {
    var p := (f: PresetFood) => f.id != food.id;
    FilterAppend(p, d.presetFoods, [food]);
    FilterKeepsAll(p, d.presetFoods);
    assert Filter(p, [food]) == [];
  }

  /** `toggleMealEnabled`: only the given meal type's flag changes. */
  function ToggleMealEnabled(d: Dataset, t: MealType): (r: Dataset)
    ensures SlotOf(r.schedule, t).enabled == !SlotOf(d.schedule, t).enabled
    ensures SlotOf(r.schedule, t).time == SlotOf(d.schedule, t).time
    ensures forall u :: u != t ==> SlotOf(r.schedule, u) == SlotOf(d.schedule, u)
    ensures r.(schedule := d.schedule) == d
  {
    var slot := SlotOf(d.schedule, t);
    d.(schedule := d.schedule[t := slot.(enabled := !slot.enabled)])
  }

  /** Toggling twice restores the schedule. */
  lemma ToggleTwiceRestores(d: Dataset, t: MealType)
    ensures ToggleMealEnabled(ToggleMealEnabled(d, t), t) == d
  {
    var r := ToggleMealEnabled(ToggleMealEnabled(d, t), t);
    assert r.schedule == d.schedule;
  }

  // ---- handleUpdateNutrition ----

  datatype NutritionField = Calories | Protein | Carbs

  /** Fat takes the rest of 100 %, to one decimal, and is never negative. */
  function FatRemainder(protein: real, carbs: real): (fat: real)
    ensures fat >= 0.0
    ensures (fat * 10.0).Floor as real == fat * 10.0
    ensures 100.0 - protein - carbs >= 0.05 ==> 100.0 - protein - carbs - 0.05 < fat <= 100.0 - protein - carbs + 0.05
    ensures 100.0 - protein - carbs < 0.05 ==> fat == 0.0
  {
    var f := RoundTenth(100.0 - protein - carbs);
    if f < 0.0 then 0.0 else f
  }

  /** When protein and carbs leave a whole number of tenths that is not
      negative, the three ratios add up to exactly 100. */
  lemma FatCompletesHundred(protein: real, carbs: real)
    requires 100.0 - protein - carbs >= 0.0
    requires ((100.0 - protein - carbs) * 10.0).Floor as real == (100.0 - protein - carbs) * 10.0
    ensures protein + carbs + FatRemainder(protein, carbs) == 100.0
  {
    var x := 100.0 - protein - carbs;
    var k := (x * 10.0).Floor;
    assert x * 10.0 == k as real;
    assert Round(x * 10.0) == k;
  }

  /** `handleUpdateNutrition`: nothing without a profile; the calories field
      sets only the target; a macro field sets that ratio and recomputes fat. */
  function UpdateNutrition(d: Dataset, field: NutritionField, value: NumText): (r: Dataset)
    ensures d.profile.None? ==> r == d
    ensures d.profile.Some? && field == Calories ==>
      r.profile == Some(d.profile.value.(targetCalories := ParseIntOrZero(value)))
    ensures d.profile.Some? && field != Calories ==>
      var ratios := d.profile.value.macroRatios;
      var p := if field == Protein then ParseFloatOrZero(value) else ratios.protein;
      var c := if field == Carbs then ParseFloatOrZero(value) else ratios.carbs;
      r.profile == Some(d.profile.value.(macroRatios := MacroRatios(p, c, FatRemainder(p, c))))
    ensures r.(profile := d.profile) == d
  {
    if d.profile.None? then d
    else
      var profile := d.profile.value;
      var numValue := ParseFloatOrZero(value);
      if field == Calories then d.(profile := Some(profile.(targetCalories := ParseIntOrZero(value))))
      else
        var protein := if field == Protein then numValue else profile.macroRatios.protein;
        var carbs := if field == Carbs then numValue else profile.macroRatios.carbs;
        d.(profile := Some(profile.(macroRatios := MacroRatios(protein, carbs, FatRemainder(protein, carbs)))))
  }

  // ---- handleFileImport ----

  /** A parsed backup document: each top-level field may be missing. */
  datatype ImportDoc = ImportDoc(
    profile: Option<UserProfile>,
    logs: Option<seq<DailyLog>>,
    weightHistory: Option<seq<WeightEntry>>,
    schedule: Option<Schedule>,
    presetFoods: Option<seq<PresetFood>>)

  function Pick<T>(present: Option<T>, current: T): T {
    if present.Some? then present.value else current
  }

  /** `handleFileImport`: when the file parses and the user confirms, each
      field present in the document replaces the current one; an unparsable
      file or a refusal changes nothing. */
  function ImportFile(d: Dataset, doc: Option<ImportDoc>, confirmed: bool): (r: Dataset)
    ensures doc.None? || !confirmed ==> r == d
    ensures doc.Some? && confirmed ==>
      && r.profile == (if doc.value.profile.Some? then doc.value.profile else d.profile)
      && (doc.value.logs.Some? ==> r.logs == doc.value.logs.value)
      && (doc.value.logs.None? ==> r.logs == d.logs)
      && (doc.value.weightHistory.Some? ==> r.weightHistory == doc.value.weightHistory.value)
      && (doc.value.weightHistory.None? ==> r.weightHistory == d.weightHistory)
      && (doc.value.schedule.Some? ==> r.schedule == doc.value.schedule.value)
      && (doc.value.schedule.None? ==> r.schedule == d.schedule)
      && (doc.value.presetFoods.Some? ==> r.presetFoods == doc.value.presetFoods.value)
      && (doc.value.presetFoods.None? ==> r.presetFoods == d.presetFoods)
  {
    if doc.None? || !confirmed then d
    else
      var x := doc.value;
      Dataset(if x.profile.Some? then x.profile else d.profile,
              Pick(x.logs, d.logs), Pick(x.weightHistory, d.weightHistory),
              Pick(x.schedule, d.schedule), Pick(x.presetFoods, d.presetFoods))
  }

  /** A document carrying all five fields of a dataset with a profile
      reproduces that dataset, whatever was there before. */
  lemma ImportOfCompleteDocument(current: Dataset, d: Dataset)
    requires d.profile.Some?
    ensures ImportFile(current, Some(ImportDoc(d.profile, Some(d.logs), Some(d.weightHistory), Some(d.schedule), Some(d.presetFoods))), true) == d
  {
  }
}
