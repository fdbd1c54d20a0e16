/** The daily-log handlers of the dashboard (components/Dashboard.tsx). Each
    builds the next log for the day from the current one and hands it to
    `onUpdateLog`; `None` stands for a handler that returns without doing so.
    The clock reading that becomes a new meal's id and timestamp is `now`. */
module Dashboard {
  import opened Model
  import opened Text

  /** `m.analysis?.calories || 0`. */
  function MealCalories(m: MealLog): real {
    if m.analysis.Some? then m.analysis.value.calories else 0.0
  }

  /** The `reduce` that gives `totalCalories`. */
  function SumCalories(ms: seq<MealLog>): real {
    if ms == [] then 0.0 else MealCalories(ms[0]) + SumCalories(ms[1..])
  }

  /** The stored total is the sum of the meals' calories. */
  predicate TotalIsConsistent(l: DailyLog) {
    l.totalCalories == SumCalories(l.meals)
  }

  lemma {:induction false} SumCaloriesAppend(a: seq<MealLog>, b: seq<MealLog>)
    ensures SumCalories(a + b) == SumCalories(a) + SumCalories(b)
  {
    if a == [] {
      assert a + b == b;
    } else {
      assert (a + b)[1..] == a[1..] + b;
      SumCaloriesAppend(a[1..], b);
    }
  }

  /** Replacing one meal changes the total by the difference of the two. */
  lemma {:induction false} SumCaloriesReplace(ms: seq<MealLog>, k: int, m: MealLog)
    requires 0 <= k < |ms|
    ensures SumCalories(ms[k := m]) == SumCalories(ms) - MealCalories(ms[k]) + MealCalories(m)
  {
    if k > 0 {
      assert ms[k := m][1..] == ms[1..][k - 1 := m];
      SumCaloriesReplace(ms[1..], k - 1, m);
    }
  }

  /** `{ ...dailyLog, meals, totalCalories: reduce(...) }`. */
  function WithMeals(l: DailyLog, ms: seq<MealLog>): (r: DailyLog)
    ensures r.date == l.date && r.weight == l.weight && r.meals == ms
    ensures TotalIsConsistent(r)
  {
    l.(meals := ms, totalCalories := SumCalories(ms))
  }

  /** The meal the photo path records: the compressed image and the
      analysis returned for it. The clock is read once for the id and once for
      the timestamp. */
  function PhotoMeal(t: MealType, image: string, analysis: FoodAnalysis, idTime: nat, stampTime: nat): (m: MealLog)
    ensures m.id == DecimalString(idTime) && m.timestamp == stampTime && m.mealType == t && m.completed
    ensures m.imageUrl == Some(image) && m.analysis == Some(analysis) && m.manualNotes.None?
  {
    MealLog(DecimalString(idTime), t, stampTime, true, Some(image), Some(analysis), None)
  }

  /** The append step of `handleFileSelect`: nothing without a selected meal
      type; otherwise exactly one meal is added after the existing ones. */
  function AppendPhotoMeal(l: DailyLog, selected: Option<MealType>, image: string, analysis: FoodAnalysis, idTime: nat, stampTime: nat)
    : (r: Option<DailyLog>)
    ensures r.None? <==> selected.None?
    ensures r.Some? ==>
      && r.value.date == l.date && r.value.weight == l.weight && TotalIsConsistent(r.value)
      && |r.value.meals| == |l.meals| + 1 && r.value.meals[..|l.meals|] == l.meals
      && r.value.meals[|l.meals|] == PhotoMeal(selected.value, image, analysis, idTime, stampTime)
      && r.value.totalCalories == SumCalories(l.meals) + analysis.calories
  {
    if selected.None? then None
    else
      var meal := PhotoMeal(selected.value, image, analysis, idTime, stampTime);
      SumCaloriesAppend(l.meals, [meal]);
      assert (l.meals + [meal])[..|l.meals|] == l.meals;
      Some(WithMeals(l, l.meals + [meal]))
  }

  /** The meal `handleAddPresetToLog` records: the preset's facts, with full
      confidence, and no image. */
  function PresetMeal(t: MealType, preset: PresetFood, idTime: nat, stampTime: nat): (m: MealLog)
    ensures m.id == DecimalString(idTime) && m.timestamp == stampTime && m.mealType == t && m.completed
    ensures m.imageUrl.None? && m.manualNotes.None?
    ensures m.analysis == Some(FoodAnalysis(preset.name, preset.calories, preset.protein, preset.carbs, preset.fat, 1.0))
  {
    MealLog(DecimalString(idTime), t, stampTime, true, None,
            Some(FoodAnalysis(preset.name, preset.calories, preset.protein, preset.carbs, preset.fat, 1.0)), None)
  }

  /** `handleAddPresetToLog`: nothing without a selected meal type; otherwise
      exactly one meal, carrying the preset, is added after the existing ones. */
  function AddPresetToLog(l: DailyLog, selected: Option<MealType>, preset: PresetFood, idTime: nat, stampTime: nat)
    : (r: Option<DailyLog>)
    ensures r.None? <==> selected.None?
    ensures r.Some? ==>
      && r.value.date == l.date && r.value.weight == l.weight && TotalIsConsistent(r.value)
      && |r.value.meals| == |l.meals| + 1 && r.value.meals[..|l.meals|] == l.meals
      && r.value.meals[|l.meals|] == PresetMeal(selected.value, preset, idTime, stampTime)
      && r.value.totalCalories == SumCalories(l.meals) + preset.calories
  {
    if selected.None? then None
    else
      var meal := PresetMeal(selected.value, preset, idTime, stampTime);
      SumCaloriesAppend(l.meals, [meal]);
      assert (l.meals + [meal])[..|l.meals|] == l.meals;
      Some(WithMeals(l, l.meals + [meal]))
  }

  /** `handleCreatePreset`: nothing when the name or the calories field is
      empty; macro fields that are empty read as 0. */
  function CreatePreset(name: string, cal: NumText, pro: NumText, carb: NumText, fat: NumText, now: nat)
    : (r: Option<PresetFood>)
    ensures r.None? <==> name == "" || cal.Blank?
    ensures r.Some? ==>
      && r.value.id == DecimalString(now)
      && r.value.name == name && r.value.calories == cal.value
      && r.value.protein == (if pro.Blank? then 0.0 else pro.value)
      && r.value.carbs == (if carb.Blank? then 0.0 else carb.value)
      && r.value.fat == (if fat.Blank? then 0.0 else fat.value)
  {
    if name == "" || cal.Blank? then None
    else Some(PresetFood(DecimalString(now), name, ParseFloatOrZero(cal), ParseFloatOrZero(pro),
                         ParseFloatOrZero(carb), ParseFloatOrZero(fat)))
  }

  function WithoutId(ms: seq<MealLog>, id: string): seq<MealLog> {
    Filter((m: MealLog) => m.id != id, ms)
  }

  function OnlyId(ms: seq<MealLog>, id: string): seq<MealLog> {
    Filter((m: MealLog) => m.id == id, ms)
  }

  /** The calories of the meals kept and of the meals removed add up to the
      calories of all meals. */
  lemma {:induction false} SumCaloriesPartition(ms: seq<MealLog>, id: string)
    ensures SumCalories(WithoutId(ms, id)) + SumCalories(OnlyId(ms, id)) == SumCalories(ms)
  {
    if ms != [] {
      SumCaloriesPartition(ms[1..], id);
      var keep := (m: MealLog) => m.id != id;
      var drop := (m: MealLog) => m.id == id;
      assert WithoutId(ms, id) == (if keep(ms[0]) then [ms[0]] else []) + WithoutId(ms[1..], id);
      assert OnlyId(ms, id) == (if drop(ms[0]) then [ms[0]] else []) + OnlyId(ms[1..], id);
      SumCaloriesAppend(if keep(ms[0]) then [ms[0]] else [], WithoutId(ms[1..], id));
      SumCaloriesAppend(if drop(ms[0]) then [ms[0]] else [], OnlyId(ms[1..], id));
    }
  }

  /** `handleDeleteLogById`: nothing unless confirmed; otherwise every meal
      with the id goes and the others stay, in order, and the total drops by
      exactly the calories of the meals removed. */
  function DeleteMealById(l: DailyLog, id: string, confirmed: bool): (r: Option<DailyLog>)
    ensures r.None? <==> !confirmed
    ensures r.Some? ==>
      && r.value.date == l.date && r.value.weight == l.weight && TotalIsConsistent(r.value)
      && r.value.meals == WithoutId(l.meals, id)
      && (forall m :: m in r.value.meals <==> m in l.meals && m.id != id)
      && r.value.totalCalories == SumCalories(l.meals) - SumCalories(OnlyId(l.meals, id))
  {
    if !confirmed then None
    else
      SumCaloriesPartition(l.meals, id);
      Some(WithMeals(l, WithoutId(l.meals, id)))
  }

  /** One meal as `handleSaveEdit` rewrites it: the form's name and numbers,
      the rest of the analysis (its confidence) kept. */
  function EditedMeal(m: MealLog, name: string, cal: NumText, pro: NumText, carb: NumText, fat: NumText): MealLog {
    var confidence := if m.analysis.Some? then m.analysis.value.confidence else 0.0;
    m.(analysis := Some(FoodAnalysis(name, ParseFloatOrZero(cal), ParseFloatOrZero(pro),
                                     ParseFloatOrZero(carb), ParseFloatOrZero(fat), confidence)))
  }

  /** `handleSaveEdit`: nothing when no meal is being edited; otherwise only
      meals with the edited meal's id change, and only in their analysis. */
  function SaveEdit(l: DailyLog, editing: Option<MealLog>, name: string, cal: NumText, pro: NumText, carb: NumText, fat: NumText)
    : (r: Option<DailyLog>)
    ensures r.None? <==> editing.None?
    ensures r.Some? ==>
      && r.value.date == l.date && r.value.weight == l.weight && TotalIsConsistent(r.value)
      && |r.value.meals| == |l.meals|
      && forall i :: 0 <= i < |l.meals| ==>
           var before, after := l.meals[i], r.value.meals[i];
           && after.(analysis := before.analysis) == before
           && (before.id != editing.value.id ==> after == before)
           && (before.id == editing.value.id ==>
                 && after.analysis.Some? && after.analysis.value.foodName == name
                 && after.analysis.value.calories == ParseFloatOrZero(cal)
                 && after.analysis.value.protein == ParseFloatOrZero(pro)
                 && after.analysis.value.carbs == ParseFloatOrZero(carb)
                 && after.analysis.value.fat == ParseFloatOrZero(fat)
                 && (before.analysis.Some? ==> after.analysis.value.confidence == before.analysis.value.confidence))
  {
    if editing.None? then None
    else
      var id := editing.value.id;
      var ms := seq(|l.meals|, i requires 0 <= i < |l.meals| =>
                    if l.meals[i].id == id then EditedMeal(l.meals[i], name, cal, pro, carb, fat) else l.meals[i]);
      Some(WithMeals(l, ms))
  }

  /** When ids are distinct, saving an edit changes the total by the
      difference between the new and the old calories of the edited meal. */
  lemma SaveEditAdjustsTotal(l: DailyLog, editing: MealLog, k: int, name: string, cal: NumText, pro: NumText, carb: NumText, fat: NumText)
    requires 0 <= k < |l.meals| && l.meals[k].id == editing.id
    requires forall i :: 0 <= i < |l.meals| && i != k ==> l.meals[i].id != editing.id
    ensures var r := SaveEdit(l, Some(editing), name, cal, pro, carb, fat);
      r.Some? && r.value.totalCalories == SumCalories(l.meals) - MealCalories(l.meals[k]) + ParseFloatOrZero(cal)
  {
    var r := SaveEdit(l, Some(editing), name, cal, pro, carb, fat);
    var edited := EditedMeal(l.meals[k], name, cal, pro, carb, fat);
    assert r.value.meals == l.meals[k := edited];
    SumCaloriesReplace(l.meals, k, edited);
  }
}
