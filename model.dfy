/** The records the application keeps for one user (types.ts), and the small
    numeric helpers that the handlers and the compaction share. */
module Model {

  datatype Option<T> = None | Some(value: T)

  datatype MealType = Breakfast | Lunch | Dinner | Snack1 | Snack2 | Snack3 | Snack4

  /** Macro split in percent (0-100). */
  datatype MacroRatios = MacroRatios(protein: real, carbs: real, fat: real)

  datatype UserProfile = UserProfile(
    name: string,
    height: real,
    weight: real,
    targetCalories: int,
    macroRatios: MacroRatios,
    setupComplete: bool)

  datatype PresetFood = PresetFood(
    id: string, name: string, calories: real, protein: real, carbs: real, fat: real)

  datatype FoodAnalysis = FoodAnalysis(
    foodName: string, calories: real, protein: real, carbs: real, fat: real, confidence: real)

  /** One eaten item; the optional fields of the source are `Option`s. */
  datatype MealLog = MealLog(
    id: string,
    mealType: MealType,
    timestamp: int,
    completed: bool,
    imageUrl: Option<string>,
    analysis: Option<FoodAnalysis>,
    manualNotes: Option<string>)

  /** A day's log; `date` is a day number standing for the `YYYY-MM-DD` string. */
  datatype DailyLog = DailyLog(date: int, meals: seq<MealLog>, totalCalories: real, weight: Option<real>)

  /** A weight sample; `date` is a day number, `timestamp` milliseconds. */
  datatype WeightEntry = WeightEntry(id: Option<string>, date: int, timestamp: Option<int>, weight: real)

  datatype MealSlot = MealSlot(time: string, enabled: bool)

  predicate CoversAllMealTypes(s: map<MealType, MealSlot>) {
    && Breakfast in s && Lunch in s && Dinner in s
    && Snack1 in s && Snack2 in s && Snack3 in s && Snack4 in s
  }

  /** The schedule has an entry for every meal type (the source's mapped type). */
  type Schedule = s: map<MealType, MealSlot> | CoversAllMealTypes(s)
    witness map[Breakfast := MealSlot("07:00", true), Snack1 := MealSlot("10:00", true),
                Lunch := MealSlot("12:30", true), Snack2 := MealSlot("16:00", true),
                Snack3 := MealSlot("15:00", false), Dinner := MealSlot("19:00", true),
                Snack4 := MealSlot("21:00", false)]

  /** `schedule[t]`: every meal type has a slot. */
  function SlotOf(s: Schedule, t: MealType): (slot: MealSlot)
    ensures t in s && slot == s[t]
  {
    match t
    case Breakfast => s[Breakfast]
    case Lunch => s[Lunch]
    case Dinner => s[Dinner]
    case Snack1 => s[Snack1]
    case Snack2 => s[Snack2]
    case Snack3 => s[Snack3]
    case Snack4 => s[Snack4]
  }

  /** The schedule a session starts with before any data is loaded. */
  const DefaultSchedule: Schedule :=
    map[Breakfast := MealSlot("07:00", true), Snack1 := MealSlot("10:00", true),
        Lunch := MealSlot("12:30", true), Snack2 := MealSlot("16:00", true),
        Snack3 := MealSlot("15:00", false), Dinner := MealSlot("19:00", true),
        Snack4 := MealSlot("21:00", false)]

  /** The unit of synchronisation: everything one user tracks. */
  datatype Dataset = Dataset(
    profile: Option<UserProfile>,
    logs: seq<DailyLog>,
    weightHistory: seq<WeightEntry>,
    schedule: Schedule,
    presetFoods: seq<PresetFood>)

  /** A dataset as written to a store, with the time of the write. */
  datatype Snapshot = Snapshot(data: Dataset, lastSynced: int)

  /** The in-memory state of a session before anything is loaded. */
  const InitialDataset := Dataset(None, [], [], DefaultSchedule, [])

  /** `Math.round`: the nearest integer, halves rounded up. */
  function Round(x: real): (n: int)
    ensures x - 0.5 < n as real <= x + 0.5
  {
    (x + 0.5).Floor
  }

  lemma RoundIdempotent(x: real)
    ensures Round(Round(x) as real) == Round(x)
  {
  }

  /** `Math.round(x * 10) / 10`: rounding to one decimal place. */
  function RoundTenth(x: real): (r: real)
    ensures x - 0.05 < r <= x + 0.05
    ensures (r * 10.0).Floor as real == r * 10.0
  {
    Round(x * 10.0) as real / 10.0
  }

  /** The text of a numeric input field: empty, or a numeral with its value. */
  datatype NumText = Blank | Numeral(value: real)

  /** `parseFloat(text) || 0`: an empty field reads as 0. */
  function ParseFloatOrZero(t: NumText): (r: real)
    ensures t.Blank? ==> r == 0.0
    ensures t.Numeral? ==> r == t.value
  {
    match t
    case Blank => 0.0
    case Numeral(v) => v
  }

  /** `parseInt(text) || 0`: the numeral truncated toward zero, 0 when empty. */
  function ParseIntOrZero(t: NumText): (n: int)
    ensures t.Blank? ==> n == 0
    ensures t.Numeral? && t.value >= 0.0 ==> n as real <= t.value < n as real + 1.0
    ensures t.Numeral? && t.value < 0.0 ==> n as real - 1.0 < t.value <= n as real
  {
    match t
    case Blank => 0
    case Numeral(v) => if v >= 0.0 then v.Floor else -((-v).Floor)
  }

  /** `s.filter(p)`. */
  function Filter<T(!new)>(p: T -> bool, s: seq<T>): (r: seq<T>)
    ensures |r| <= |s|
    ensures forall x :: x in r <==> x in s && p(x)
  {
    if s == [] then [] else (if p(s[0]) then [s[0]] else []) + Filter(p, s[1..])
  }

  /** Filtering keeps relative order: it distributes over concatenation. */
  lemma {:induction false} FilterAppend<T(!new)>(p: T -> bool, a: seq<T>, b: seq<T>)
    ensures Filter(p, a + b) == Filter(p, a) + Filter(p, b)
  {
    if a == [] {
      assert a + b == b;
    } else {
      assert (a + b)[1..] == a[1..] + b;
      FilterAppend(p, a[1..], b);
    }
  }

  /** A filter whose test every element passes changes nothing. */
  lemma {:induction false} FilterKeepsAll<T(!new)>(p: T -> bool, s: seq<T>)
    requires forall i :: 0 <= i < |s| ==> p(s[i])
    ensures Filter(p, s) == s
  {
    if s != [] {
      assert forall i :: 0 <= i < |s[1..]| ==> p(s[1..][i]) by {
        forall i | 0 <= i < |s[1..]| ensures p(s[1..][i]) {
          assert s[1..][i] == s[i + 1];
        }
      }
      FilterKeepsAll(p, s[1..]);
      assert s == [s[0]] + s[1..];
    }
  }
}
