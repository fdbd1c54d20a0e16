/** The payload reduction applied before every cloud write (`optimizeLogs` in
    services/cloudService.ts). The two cut-offs are day numbers supplied by the
    caller: logs dated before `yearCutoff` are dropped, and meals of logs dated
    before `imageCutoff` lose their image. */
module Compaction {
  import opened Model
  import opened Text

  /** Analysis numbers rounded to integers, confidence cleared. */
  function CompactAnalysis(a: FoodAnalysis): (r: FoodAnalysis)
    ensures r.foodName == a.foodName && r.confidence == 0.0
    ensures r.calories == Round(a.calories) as real && r.protein == Round(a.protein) as real
    ensures r.carbs == Round(a.carbs) as real && r.fat == Round(a.fat) as real
  {
    a.(calories := Round(a.calories) as real, protein := Round(a.protein) as real,
       carbs := Round(a.carbs) as real, fat := Round(a.fat) as real, confidence := 0.0)
  }

  /** `meal.manualNotes ? meal.manualNotes.trim() : undefined`: an empty note
      is falsy and dropped; any other note is trimmed, possibly down to "". */
  function CompactNotes(n: Option<string>): Option<string> {
    if n.Some? && n.value != "" then Some(Trim(n.value)) else None
  }

  function CompactMeal(m: MealLog, recent: bool): MealLog {
    m.(imageUrl := if recent then m.imageUrl else None,
       manualNotes := CompactNotes(m.manualNotes),
       analysis := if m.analysis.Some? then Some(CompactAnalysis(m.analysis.value)) else None)
  }

  function CompactMeals(ms: seq<MealLog>, recent: bool): (r: seq<MealLog>)
    ensures |r| == |ms|
    ensures forall i :: 0 <= i < |ms| ==> r[i] == CompactMeal(ms[i], recent)
  {
    if ms == [] then [] else [CompactMeal(ms[0], recent)] + CompactMeals(ms[1..], recent)
  }

  function CompactLog(l: DailyLog, imageCutoff: int): DailyLog {
    l.(totalCalories := Round(l.totalCalories) as real,
       meals := CompactMeals(l.meals, l.date >= imageCutoff))
  }

  /** The logs dated on or after the cut-off, in their order. */
  function Retained(logs: seq<DailyLog>, yearCutoff: int): (r: seq<DailyLog>)
    ensures |r| <= |logs|
    ensures forall l :: l in r <==> l in logs && l.date >= yearCutoff
  {
    if logs == [] then []
    else (if logs[0].date >= yearCutoff then [logs[0]] else []) + Retained(logs[1..], yearCutoff)
  }

  /** The `map` step: every log compacted, in place. */
  function CompactLogs(logs: seq<DailyLog>, imageCutoff: int): (r: seq<DailyLog>)
    ensures |r| == |logs|
    ensures forall i :: 0 <= i < |logs| ==> r[i] == CompactLog(logs[i], imageCutoff)
  {
    if logs == [] then [] else [CompactLog(logs[0], imageCutoff)] + CompactLogs(logs[1..], imageCutoff)
  }

  /** `optimizeLogs`: filter by the retention cut-off, then compact each log.
      Every log left is dated inside the retention window. */
  function OptimizeLogs(logs: seq<DailyLog>, yearCutoff: int, imageCutoff: int): (r: seq<DailyLog>)
    ensures |r| == |Retained(logs, yearCutoff)| && |r| <= |logs|
    ensures forall i :: 0 <= i < |r| ==> r[i] == CompactLog(Retained(logs, yearCutoff)[i], imageCutoff)
    ensures forall i :: 0 <= i < |r| ==> r[i].date >= yearCutoff
  {
    var kept := Retained(logs, yearCutoff);
    assert forall i :: 0 <= i < |kept| ==> kept[i].date >= yearCutoff by {
      forall i | 0 <= i < |kept| ensures kept[i].date >= yearCutoff {
        assert kept[i] in kept;
      }
    }
    CompactLogs(kept, imageCutoff)
  }

  /** The retention filter keeps relative order: it distributes over
      concatenation. */
  lemma {:induction false} RetainedAppend(a: seq<DailyLog>, b: seq<DailyLog>, yearCutoff: int)
    ensures Retained(a + b, yearCutoff) == Retained(a, yearCutoff) + Retained(b, yearCutoff)
  {
    if a == [] {
      assert a + b == b;
    } else {
      assert (a + b)[1..] == a[1..] + b;
      RetainedAppend(a[1..], b, yearCutoff);
    }
  }

  /** A log list already inside the retention window passes through. */
  lemma {:induction false} RetainedAll(logs: seq<DailyLog>, yearCutoff: int)
    requires forall i :: 0 <= i < |logs| ==> logs[i].date >= yearCutoff
    ensures Retained(logs, yearCutoff) == logs
  {
    if logs != [] {
      var tail := logs[1..];
      assert forall i :: 0 <= i < |tail| ==> tail[i] == logs[i + 1];
      RetainedAll(tail, yearCutoff);
      assert logs == [logs[0]] + tail;
    }
  }

  /** A log list entirely before the retention window disappears. */
  lemma {:induction false} RetainedNone(logs: seq<DailyLog>, yearCutoff: int)
    requires forall i :: 0 <= i < |logs| ==> logs[i].date < yearCutoff
    ensures Retained(logs, yearCutoff) == []
  {
    if logs != [] {
      var tail := logs[1..];
      assert forall i :: 0 <= i < |tail| ==> tail[i] == logs[i + 1];
      RetainedNone(tail, yearCutoff);
    }
  }

  /** What compaction does to one log: the date, the meal count and order, and
      every meal's identity are kept; images go exactly when the log is older
      than the image cut-off; numbers are rounded and confidence is cleared;
      a meal without analysis stays without analysis. */
  lemma CompactLogEffect(l: DailyLog, imageCutoff: int, i: int)
    requires 0 <= i < |l.meals|
    ensures CompactLog(l, imageCutoff).date == l.date
    ensures CompactLog(l, imageCutoff).weight == l.weight
    ensures CompactLog(l, imageCutoff).totalCalories == Round(l.totalCalories) as real
    ensures |CompactLog(l, imageCutoff).meals| == |l.meals|
    ensures var m, c := l.meals[i], CompactLog(l, imageCutoff).meals[i];
      && c.id == m.id && c.mealType == m.mealType && c.timestamp == m.timestamp && c.completed == m.completed
      && c.imageUrl == (if l.date >= imageCutoff then m.imageUrl else None)
      && c.analysis.Some? == m.analysis.Some?
      && (m.analysis.Some? ==>
            && c.analysis.value.confidence == 0.0
            && c.analysis.value.calories == Round(m.analysis.value.calories) as real
            && c.analysis.value.protein == Round(m.analysis.value.protein) as real
            && c.analysis.value.carbs == Round(m.analysis.value.carbs) as real
            && c.analysis.value.fat == Round(m.analysis.value.fat) as real
            && c.analysis.value.foodName == m.analysis.value.foodName)
      && (m.manualNotes.None? ==> c.manualNotes.None?)
      && (m.manualNotes == Some("") ==> c.manualNotes.None?)
      && (m.manualNotes.Some? && m.manualNotes.value != "" ==> c.manualNotes == Some(Trim(m.manualNotes.value)))
  {
  }

  /** A note that is not empty but only whitespace: the one shape the notes
      step does not leave alone on a second pass. */
  predicate IsBlankNote(n: Option<string>) {
    n.Some? && n.value != "" && Trim(n.value) == ""
  }

  predicate NoBlankNotes(logs: seq<DailyLog>) {
    forall l, m :: l in logs && m in l.meals ==> !IsBlankNote(m.manualNotes)
  }

  lemma CompactNotesIdempotent(n: Option<string>)
    requires !IsBlankNote(n)
    ensures CompactNotes(CompactNotes(n)) == CompactNotes(n)
  {
    if n.Some? && n.value != "" {
      TrimIdempotent(n.value);
    }
  }

  /** The notes step is not idempotent on a whitespace-only note: "  " becomes
      "", which a second pass drops altogether. */
  lemma BlankNoteBreaksIdempotence()
    ensures CompactNotes(Some("  ")) == Some("")
    ensures CompactNotes(CompactNotes(Some("  "))) == None
  {
    var note := "  ";
    assert IsBlank(note) by {
      assert forall i :: 0 <= i < |note| ==> note[i] == ' ';
    }
    TrimEmptyIffBlank(note);
  }

  lemma CompactMealIdempotent(m: MealLog, recent: bool)
    requires !IsBlankNote(m.manualNotes)
    ensures CompactMeal(CompactMeal(m, recent), recent) == CompactMeal(m, recent)
  {
    CompactNotesIdempotent(m.manualNotes);
    if m.analysis.Some? {
      var a := m.analysis.value;
      RoundIdempotent(a.calories);
      RoundIdempotent(a.protein);
      RoundIdempotent(a.carbs);
      RoundIdempotent(a.fat);
    }
  }

  lemma CompactLogIdempotent(l: DailyLog, imageCutoff: int)
    requires forall m :: m in l.meals ==> !IsBlankNote(m.manualNotes)
    ensures CompactLog(CompactLog(l, imageCutoff), imageCutoff) == CompactLog(l, imageCutoff)
  {
    var recent := l.date >= imageCutoff;
    var once := CompactMeals(l.meals, recent);
    var twice := CompactMeals(once, recent);
    forall i | 0 <= i < |l.meals| ensures twice[i] == once[i] {
      assert l.meals[i] in l.meals;
      CompactMealIdempotent(l.meals[i], recent);
    }
    RoundIdempotent(l.totalCalories);
  }

  /** For fixed cut-offs, compaction is idempotent on logs without
      whitespace-only notes. */
  lemma {:induction false} OptimizeLogsIdempotent(logs: seq<DailyLog>, yearCutoff: int, imageCutoff: int)
    requires NoBlankNotes(logs)
    ensures OptimizeLogs(OptimizeLogs(logs, yearCutoff, imageCutoff), yearCutoff, imageCutoff)
         == OptimizeLogs(logs, yearCutoff, imageCutoff)
  {
    var once := OptimizeLogs(logs, yearCutoff, imageCutoff);
    var kept := Retained(logs, yearCutoff);
    // Everything left is inside the window, so the second filter keeps it all.
    RetainedAll(once, yearCutoff);
    assert Retained(once, yearCutoff) == once;
    var twice := OptimizeLogs(once, yearCutoff, imageCutoff);
    forall i | 0 <= i < |once| ensures twice[i] == once[i] {
      assert kept[i] in kept;
      assert kept[i] in logs;
      CompactLogIdempotent(kept[i], imageCutoff);
    }
  }
}
