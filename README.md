# NutriLife sync path, modelled in Dafny

NutriLife is an offline-first nutrition tracker. A user's data is a
*dataset*: profile, daily logs of meals, weight history, meal schedule and
preset foods. The dataset lives in three places:

- in memory, in the app;
- in a device cache, one snapshot per user in the browser's `localStorage`;
- in a simulated cloud database, itself one document in the same
  `localStorage`.

This project models the part of the app that keeps these three consistent and
the pure operations that change the dataset:

- **Storage** — the browser key-value store that the cache, the cloud
  database and the account list share. It is a class over a map, and a write
  the browser refuses (quota) is a parameter.
- **LocalService** — the per-user cache key, and save, load and clear of a
  whole snapshot.
- **Compaction** — `optimizeLogs`: retention of the last year of logs,
  removal of images older than a week, integer rounding, cleared confidence,
  trimmed notes. The cut-offs are day numbers given by the caller.
- **CloudService** — the per-user database map: a read that fails softly, and
  a push that compacts the logs and stamps the record with the time of the
  write.
- **Sync** — the session of the authenticated app, as a class:
  - the two-phase start: publish the cache, then reconcile with the cloud
    under the 500 ms grace rule;
  - the save-and-push cycle that runs on every change once loading is over;
  - how the status moves between `synced`, `syncing` and `local_saved`.
- **AppHandlers** — the dataset handlers of the app: replace the log of a
  day, record or delete a weight sample (the profile weight follows the
  newest sample), add or delete presets, toggle a meal slot, set the
  nutrition targets with fat as the remainder, import a backup field by field.
- **Dashboard** — the daily-log handlers: append a photo meal or a preset
  meal, create a preset, delete meals by id, edit a meal. Each one recomputes
  the day's calorie total.
- **Admin** — the account list (list, add, delete). Deleting an account also
  removes every store key that starts with `nutrilife_<username>_`. The
  deletion is modelled with the source's two loops: collect the keys, then
  remove them.

The clock, the cloud read's outcome (no record, a record, or an exception),
the user's answers to confirmation dialogs, the analysis of a photo and
whether the browser accepts a write are all parameters. Dates are day numbers.
Numbers are mathematical reals, with `Math.round(x)` taken as
`floor(x + 0.5)`. JSON encoding is the identity: the store keeps parsed
values. `Text` stands for a string that does not parse as the expected
document.

Four behaviours of the code that the model keeps as they are:

- After a failed push the status is `local_saved`.
- Deleting an account removes exactly the store keys that start with
  `nutrilife_<username>_`. The user's entry in the cloud database is not
  touched. The user's device cache (`nutrilife_local_v2_<username>`) stays
  too, as long as the username does not start with `local`
  (`Admin.CacheSurvivesDelete`). The prefix test also reaches other keys:
  - deleting `local` removes every user's device cache
    (`Admin.DeletingLocalRemovesEveryCache`);
  - deleting `cloud` removes the whole cloud database
    (`Admin.DeletingCloudRemovesCloudDb`);
  - deleting `users` removes the account list (`Admin.DeletingUsersRemovesAccountList`);
  - deleting `u` removes the keys of an account named `u_x`
    (`Admin.DeleteReachesUnderscoreNames`).
- Images are kept or dropped by the date of the log, not by the meal's
  timestamp.
- An import replaces each field the file has and keeps the others. A file with
  missing fields is not rejected.

## Model

| member | source | states |
|---|---|---|
| Model.SlotOf | App.tsx:47-55 | every meal type has a slot in the schedule, and the slot returned is its entry |
| Model.Round | services/cloudService.ts:39 | `Math.round` gives the integer nearest to x, with halves rounded up: x - 0.5 < n <= x + 0.5 |
| Model.RoundTenth | App.tsx:264 | rounding to one decimal yields a whole number of tenths within 0.05 of the input |
| Model.RoundIdempotent | services/cloudService.ts:39 | rounding a rounded number gives it back |
| Model.ParseFloatOrZero | App.tsx:250 | an empty numeric field reads as 0, any other as its value |
| Model.ParseIntOrZero | App.tsx:253 | `parseInt(v) \|\| 0`: an empty field reads as 0, any other as its value truncated toward zero |
| Model.Filter | App.tsx:199 | `Array.prototype.filter`: the result holds exactly the elements that pass the test, and is no longer than the input |
| Model.FilterAppend | App.tsx:199 | filtering keeps relative order: the filter of two lists together is the two filters one after the other |
| Model.FilterKeepsAll | App.tsx:199 | a filter that every element passes returns the list unchanged |
| Text.IsWhitespace | services/cloudService.ts:45 | definition: the ECMAScript whitespace and line-terminator characters that `trim` removes |
| Text.TrimStart | services/cloudService.ts:45 | the result is a suffix of the input that does not start with whitespace, and everything removed before it is whitespace |
| Text.TrimEnd | services/cloudService.ts:45 | the result is a prefix of the input that does not end with whitespace, and everything removed after it is whitespace |
| Text.Trim | services/cloudService.ts:45 | definition; characterised by `Text.TrimHasNoOuterWhitespace`, `Text.TrimIdempotent` and `Text.TrimEmptyIffBlank` |
| Text.TrimHasNoOuterWhitespace | services/cloudService.ts:45 | a trimmed note neither starts nor ends with whitespace |
| Text.TrimIdempotent | services/cloudService.ts:45 | trimming a trimmed note changes nothing |
| Text.TrimEmptyIffBlank | services/cloudService.ts:45 | a note trims to "" exactly when it is made only of whitespace |
| Text.StartsWith | components/AdminDashboard.tsx:73 | definition of `startsWith`: the prefix is an initial segment; characterised by the `Admin` deletion lemmas |
| Text.DecimalString | App.tsx:208 | `Date.now().toString()`: the id is a non-empty string of decimal digits |
| Text.DecimalStringLength | App.tsx:208 | a number of ten or more renders with at least two digits |
| Text.DecimalStringInjective | App.tsx:208 | two clock readings give the same id only when they are equal |
| Storage.KeyValueStore.GetItem | services/localService.ts:28 | `getItem` returns the stored value exactly when the key is present |
| Storage.KeyValueStore.SetItem | services/localService.ts:19 | `setItem` replaces one key when the browser accepts the write; when it refuses, nothing is written and the call reports failure |
| Storage.KeyValueStore.RemoveItem | services/localService.ts:39 | `removeItem` removes exactly that key |
| LocalService.LocalKey | services/localService.ts:13 | the cache key is `nutrilife_local_v2_` followed by the username |
| LocalService.LocalKeyInjective | services/localService.ts:13 | two usernames share a cache key exactly when they are equal |
| LocalService.Load | services/localService.ts:26-35 | the cached snapshot is returned when the key holds a snapshot; nothing when it is absent or holds anything else |
| LocalService.Saved | services/localService.ts:17-23 | definition of the store after a save; characterised by `LocalService.LoadAfterSave` |
| LocalService.SaveUserData | services/localService.ts:17-23 | saving puts the snapshot under the user's key; a refused write is swallowed and changes nothing |
| LocalService.GetUserData | services/localService.ts:26-35 | loading reads the store as `Load` describes |
| LocalService.ClearUserData | services/localService.ts:38-40 | clearing removes the user's key and nothing else |
| LocalService.LoadAfterSave | services/localService.ts:17-35 | round trip: an accepted save is read back exactly, other users read what they had, a refused save changes no read |
| LocalService.LoadAfterClear | services/localService.ts:38-40 | after clearing, the user has no snapshot and every other user keeps theirs |
| Compaction.CompactAnalysis | services/cloudService.ts:47-55 | the four macro numbers are rounded to integers, confidence becomes 0, the food name is kept |
| Compaction.CompactNotes | services/cloudService.ts:45 | definition; characterised by `Compaction.CompactLogEffect`, `Compaction.CompactNotesIdempotent` and `Compaction.BlankNoteBreaksIdempotence` |
| Compaction.CompactMeal | services/cloudService.ts:40-56 | definition; characterised by `Compaction.CompactLogEffect` and `Compaction.CompactMealIdempotent` |
| Compaction.CompactLog | services/cloudService.ts:33-58 | definition; characterised by `Compaction.CompactLogEffect` and `Compaction.CompactLogIdempotent` |
| Compaction.CompactMeals | services/cloudService.ts:40-56 | each meal is compacted in place and the meal count is kept |
| Compaction.Retained | services/cloudService.ts:31-32 | exactly the logs dated on or after the one-year cut-off are kept |
| Compaction.OptimizeLogs | services/cloudService.ts:22-59 | the result is, position by position, the compaction of the retained logs; it is no longer than the input and every log in it is dated inside the retention window |
| Compaction.RetainedAppend | services/cloudService.ts:31-32 | the retention filter keeps relative order: it distributes over concatenation |
| Compaction.RetainedAll | services/cloudService.ts:24-32 | logs all inside the retention window pass through unchanged |
| Compaction.RetainedNone | services/cloudService.ts:24-32 | logs all before the retention window are all dropped |
| Compaction.CompactLogs | services/cloudService.ts:33-58 | each log is compacted in place and the log count is kept |
| Compaction.CompactLogEffect | services/cloudService.ts:33-58 | date, weight, meal count, meal ids, types, timestamps and completion are kept; images stay exactly when the log is on or after the image cut-off; totals and macros are rounded; confidence becomes 0; a meal without analysis stays without one; a non-empty note is trimmed, and an absent or empty note ends absent |
| Compaction.CompactNotesIdempotent | services/cloudService.ts:45 | compacting a note twice is the same as once, unless the note is only whitespace |
| Compaction.BlankNoteBreaksIdempotence | services/cloudService.ts:45 | the note "  " becomes "" on one pass and disappears on a second |
| Compaction.CompactMealIdempotent | services/cloudService.ts:40-56 | compacting a meal twice is the same as once, for notes that are not only whitespace |
| Compaction.CompactLogIdempotent | services/cloudService.ts:33-58 | compacting a log twice is the same as once, under the same condition on notes |
| Compaction.OptimizeLogsIdempotent | services/cloudService.ts:31-58 | for fixed cut-offs, `optimizeLogs` applied twice equals applied once, under the same condition on notes |
| CloudService.ReadDb | services/cloudService.ts:89-90 | a missing or empty database reads as empty, a database reads as itself, anything else makes the read fail |
| CloudService.GetUserData | services/cloudService.ts:63-80 | the pull returns the user's record exactly when the database is present, readable and holds the user; otherwise nothing |
| CloudService.Optimized | services/cloudService.ts:94-101 | definition of the stored record; characterised by `CloudService.GetAfterSave` |
| CloudService.SaveSucceeds | services/cloudService.ts:87-117 | definition: the push succeeds exactly when the database is readable and the write is accepted |
| CloudService.AfterSave | services/cloudService.ts:103-107 | definition of the store after a push; characterised by `CloudService.GetAfterSave`, `CloudService.SaveIsolatesUsers` and `CloudService.SaveTouchesOnlyCloudDb` |
| CloudService.SaveUserData | services/cloudService.ts:83-118 | the push succeeds exactly when the database is readable and the write is accepted; when it succeeds, the compacted record stamped with the write time is put under the username; when it fails, nothing changes |
| CloudService.GetAfterSave | services/cloudService.ts:94-104 | after a successful push, the pull returns the pushed profile, weight history, schedule and presets unchanged, the compacted logs, and the write time as `lastSynced` |
| CloudService.SaveIsolatesUsers | services/cloudService.ts:103-107 | a push never changes what another user's pull returns |
| CloudService.SaveTouchesOnlyCloudDb | services/cloudService.ts:89-107 | a push changes no store key other than the database's |
| Sync.LocalTime | App.tsx:81 | the local stamp is the cached `lastSynced`, or 0 when there is no cache |
| Sync.AdoptsRemote | App.tsx:83 | definition of the grace rule; characterised by `Sync.GraceBoundary` and `Sync.AdoptionIsStable` |
| Sync.Adopted | App.tsx:78-83 | definition: a record came back and the grace rule takes it |
| Sync.GraceBoundary | App.tsx:81-83 | the grace comparison is strict: a cloud record 500 ms newer is not adopted, 501 ms newer is, an older one never is |
| Sync.AdoptionIsStable | App.tsx:80-98 | once a cloud record has been cached with its own stamp, it is not adopted again |
| Sync.CacheKeyIsNotCloudKey | services/localService.ts:13 | no user's cache key is the cloud database's key |
| Sync.CacheSurvivesPush | App.tsx:139-170 | the snapshot a cycle caches is still cached after the push, whether the push succeeded or failed |
| Sync.GraceWindowDeterminism | App.tsx:81-99 | a cloud record 501 ms newer is adopted and cached with its own stamp; one 499 ms newer is not adopted |
| Sync.FirstCycleRestamps | App.tsx:136-172 | after the start's first cycle, the cache holds the dataset under the cycle's stamp, and a successful push holds its compacted record |
| Sync.SyncSession.constructor | App.tsx:44-45 | a session starts with status `synced`, still loading, with the empty dataset |
| Sync.SyncSession.LoadLocal | App.tsx:60-70 | phase one: the cached snapshot, when there is one, is published; nothing is written |
| Sync.SyncSession.Reconcile | App.tsx:72-110 | phase two: under the grace rule, the cloud record goes to memory and to the cache with the cloud's stamp; otherwise nothing changes; always ends `synced` and not loading |
| Sync.SyncSession.InitApp | App.tsx:59-111 | the whole start: the dataset ends as the adopted cloud record, else the cached one, else as it was |
| Sync.SyncSession.OnDataChange | App.tsx:136-150 | skipped while loading; otherwise the dataset is cached with this cycle's stamp, the status becomes `syncing`, and the push payload is the dataset without a stamp |
| Sync.SyncSession.OnPushSettled | App.tsx:163-167 | a successful push gives `synced`, a failed one `local_saved` |
| Sync.SyncSession.PushToCloud | App.tsx:154-170 | the push writes the cloud as `CloudService.SaveUserData` does and its result decides the status |
| Sync.SyncSession.Start | App.tsx:58-172 | reconciliation followed by the cycle that the end of loading triggers: whatever was chosen is cached again under the cycle's stamp and pushed |
| AppHandlers.OtherDates | App.tsx:199 | definition: the filter on the date; characterised by `AppHandlers.UpdateLogLeavesOneLogForDate` |
| AppHandlers.UpdateLog | App.tsx:198-201 | the logs of other dates, in order, followed by the updated log; nothing else changes |
| AppHandlers.UpdateLogLeavesOneLogForDate | App.tsx:198-201 | after an update, exactly one log has that date, and every log of another date is kept |
| AppHandlers.UpdateLogKeepsDatesUnique | App.tsx:198-201 | an update keeps the dates of the logs distinct |
| AppHandlers.FilterUniqueDates | App.tsx:199 | filtering keeps the dates of the logs distinct |
| AppHandlers.Stamped | App.tsx:222 | definition: a timestamp the comparator uses, present and not 0 |
| AppHandlers.SortsBefore | App.tsx:221-224 | definition of the comparator; characterised by `AppHandlers.NewestIsNewest` and `AppHandlers.NewestSortsBeforeEarlier` |
| AppHandlers.Newest | App.tsx:221-225 | the entry the sort puts first is one of the remaining entries |
| AppHandlers.NewestSortsBeforeEarlier | App.tsx:221-225 | ties go to the earliest entry, as in a stable sort: every entry before the chosen one sorts strictly after it |
| AppHandlers.NewestIsNewest | App.tsx:221-224 | when all entries carry a timestamp, or none does, no entry sorts before the chosen one |
| AppHandlers.NewestOfAppended | App.tsx:221-224 | an entry newer than all others is chosen over them |
| AppHandlers.NewWeightEntry | App.tsx:207-212 | the new entry has today's date and the new weight; its id is the first clock reading in decimal and its timestamp the second |
| AppHandlers.UpdateWeight | App.tsx:203-214 | nothing changes without a profile; otherwise the profile takes the new weight and exactly that entry is appended; nothing else changes |
| AppHandlers.DeleteWeight | App.tsx:216-227 | nothing changes without a profile; otherwise exactly the entries with the id go; the profile takes the newest remaining weight, or stays when none remain |
| AppHandlers.UpdateWeightIsNewest | App.tsx:203-227 | after recording a later-stamped sample, the profile weight is the weight the delete handler's sort would pick |
| AppHandlers.AddPresetFood | App.tsx:233-235 | the preset is appended; nothing else changes |
| AppHandlers.DeletePresetFood | App.tsx:237-239 | the presets are filtered: those with the id go, the others stay in order and with their repeats; nothing else changes |
| AppHandlers.DeleteUndoesAdd | App.tsx:233-239 | deleting a just-added preset with a fresh id restores the dataset |
| AppHandlers.ToggleMealEnabled | App.tsx:241-246 | only the given slot's enabled flag flips; its time and every other slot are kept |
| AppHandlers.ToggleTwiceRestores | App.tsx:241-246 | toggling a slot twice restores the dataset |
| AppHandlers.FatRemainder | App.tsx:263-265 | fat is never negative and is a whole number of tenths; it lies within 0.05 of 100 - protein - carbs when that is at least 0.05, and it is 0 when that is below 0.05 |
| AppHandlers.FatCompletesHundred | App.tsx:263-269 | when protein and carbs leave a non-negative whole number of tenths, the three ratios add up to exactly 100 |
| AppHandlers.UpdateNutrition | App.tsx:248-271 | nothing changes without a profile; the calories field sets only the target; a macro field sets that ratio and recomputes fat as `FatRemainder` |
| AppHandlers.Pick | App.tsx:300-304 | definition of `if (data.x) setX(data.x)`: the imported value when present, the current one otherwise; characterised by `AppHandlers.ImportFile` and `AppHandlers.ImportOfCompleteDocument` |
| AppHandlers.ImportFile | App.tsx:291-311 | a refused or unparsable file changes nothing; otherwise each field the file has replaces the current one and the others are kept |
| AppHandlers.ImportOfCompleteDocument | App.tsx:300-304 | importing a file with all five fields of a dataset yields that dataset |
| Dashboard.MealCalories | components/Dashboard.tsx:181 | definition: a meal's calories, 0 without an analysis |
| Dashboard.SumCalories | components/Dashboard.tsx:181 | definition of the `reduce`; characterised by `Dashboard.SumCaloriesAppend`, `Dashboard.SumCaloriesReplace` and `Dashboard.SumCaloriesPartition` |
| Dashboard.SumCaloriesAppend | components/Dashboard.tsx:181 | the total of two meal lists together is the sum of their totals |
| Dashboard.SumCaloriesReplace | components/Dashboard.tsx:279 | replacing one meal changes the total by the difference of their calories |
| Dashboard.SumCaloriesPartition | components/Dashboard.tsx:245-246 | the meals kept and the meals removed by id together carry the whole total |
| Dashboard.WithMeals | components/Dashboard.tsx:181-187 | the new log keeps the date and weight, and its total is the sum of its meals' calories |
| Dashboard.PhotoMeal | components/Dashboard.tsx:169-176 | the new meal is completed and has the selected type, the image and the analysis; its id is the first clock reading in decimal and its timestamp the second |
| Dashboard.AppendPhotoMeal | components/Dashboard.tsx:169-187 | nothing without a meal type; otherwise exactly that meal is appended, earlier meals, the date and the weight are kept, and the total grows by its calories |
| Dashboard.PresetMeal | components/Dashboard.tsx:199-212 | the new meal is completed, has no image, and carries the preset's name and numbers with confidence 1; id and timestamp come from two clock readings |
| Dashboard.AddPresetToLog | components/Dashboard.tsx:196-219 | nothing without a meal type; otherwise exactly that meal is appended, earlier meals, the date and the weight are kept, and the total grows by the preset's calories |
| Dashboard.CreatePreset | components/Dashboard.tsx:221-233 | no preset when the name or the calories field is empty; otherwise its id is the clock reading in decimal, it has the given name and calories, and empty macro fields become 0 |
| Dashboard.WithoutId | components/Dashboard.tsx:245 | definition of the `m.id !== id` filter; characterised by `Dashboard.DeleteMealById` and `Dashboard.SumCaloriesPartition` |
| Dashboard.OnlyId | components/Dashboard.tsx:245 | definition of the meals that filter removes; characterised by `Dashboard.SumCaloriesPartition` |
| Dashboard.DeleteMealById | components/Dashboard.tsx:243-248 | nothing unless confirmed; otherwise exactly the meals with the id go, the others stay in order, the date and the weight are kept, and the total drops by their calories |
| Dashboard.EditedMeal | components/Dashboard.tsx:262-274 | definition of one edited meal; characterised by `Dashboard.SaveEdit` |
| Dashboard.SaveEdit | components/Dashboard.tsx:259-282 | nothing without a meal being edited; otherwise the date, the weight and the count are kept, meals with another id are unchanged, and edited meals change only in their analysis: the form's name and four numbers, the confidence they had kept |
| Dashboard.SaveEditAdjustsTotal | components/Dashboard.tsx:262-279 | with distinct ids, the total changes by the new calories minus the edited meal's old calories |
| Admin.ReadUsers | components/AdminDashboard.tsx:46 | a missing or empty account list reads as empty, a list as itself, anything else makes the handler fail |
| Admin.LoadUsers | components/AdminDashboard.tsx:45-52 | one row per account, with its password, and no username twice; nothing when the list cannot be read |
| Admin.DataPrefix | components/AdminDashboard.tsx:69 | definition: `nutrilife_<username>_`; characterised by the `Admin` deletion lemmas |
| Admin.WithoutAccount | components/AdminDashboard.tsx:62-64 | definition of the store after the account list is rewritten; characterised by `Admin.DeleteKeepsOtherAccounts` |
| Admin.Purge | components/AdminDashboard.tsx:68-78 | exactly the keys with the prefix are gone; every other key keeps its value |
| Admin.DeleteUser | components/AdminDashboard.tsx:54-83 | `admin` is refused and an unconfirmed delete changes nothing; otherwise the account leaves the list and every key with the user's prefix is removed, collected first and removed after |
| Admin.DeleteKeepsOtherAccounts | components/AdminDashboard.tsx:62-64 | deleting an account leaves every other account as it was, unless the list's own key has the user's prefix |
| Admin.DeleteRemovesExactlyPrefixed | components/AdminDashboard.tsx:68-78 | the user's theme and language keys go; a key without the prefix survives with its value |
| Admin.CacheSurvivesDelete | components/AdminDashboard.tsx:69-73 | the device cache key of a user whose name does not start with "local" does not carry the deleted prefix, so it survives |
| Admin.DeleteReachesUnderscoreNames | components/AdminDashboard.tsx:69-73 | deleting `u` also removes the keys of an account named `u_x` |
| Admin.DeletingCloudRemovesCloudDb | components/AdminDashboard.tsx:69-78 | deleting an account named `cloud` removes the whole cloud database |
| Admin.DeletingLocalRemovesEveryCache | components/AdminDashboard.tsx:69-78 | deleting an account named `local` removes every user's device cache |
| Admin.DeletingUsersRemovesAccountList | components/AdminDashboard.tsx:62-78 | deleting an account named `users` removes the account list itself |
| Admin.AddUser | components/AdminDashboard.tsx:85-104 | an empty field, an unreadable list, an existing username or a refused write changes nothing; otherwise exactly one account is inserted |
| Admin.AddedAccount | components/AdminDashboard.tsx:97-98 | after an add, the new account has the given password and every other account reads as before |

## Left out

- Network latency and the `delay` helper: every call is one step. Overlapping pushes that are not awaited are not modelled, because the code neither serialises nor cancels them, and no race-safety property is claimed.
- The clock, the calendar and time zones. "One calendar year ago" and "seven days ago" are given as day numbers (`CloudService.Cutoffs`), and `Date.now()` is a parameter.
- Floating point. Numbers are reals: no NaN, no infinities, no binary rounding. The `|| 0` fallbacks for a NaN parse are therefore not modelled.
- Model.ParseFloatOrZero, Model.ParseIntOrZero: a numeric input is empty or a number; prefixes such as `"12abc"` or `"1e3"` under `parseInt` are not modelled.
- JSON encoding, and the logging of the database size. A parsed document of an unexpected shape under the cloud or account key is treated as unreadable.
- LocalService.Load: only a stored snapshot is returned. The source returns any value that parses (for example `{}`), unchecked, and the start then publishes its missing fields as undefined. That case is not modelled.
- Admin.AddUser: `db[name]` also finds properties inherited from `Object.prototype`. So the source reports "already exists" for names like `constructor` or `toString`, and the model adds them. Inherited properties are not modelled.
- CloudService.GetUserData: in the same way, a username such as `constructor` finds an inherited property of the parsed database, which the source returns as a record. Inherited properties are not modelled.
- `analyzeFoodImage` (the language-model call) and `compressImage` (canvas). The image and the analysis are inputs.
- Rendering; the theme and language effects; the date-checker interval; export; `handleProfileComplete`; `handleUpdateSchedule`.
- The order of `Object.keys`: `Admin.LoadUsers` promises the set of accounts, not their order.
- Sync.SyncSession.Start: the React effect scheduling is reduced to one call per change. The data-change effect's dependency list is not modelled beyond "runs once after loading ends and after each change".
- Compaction.OptimizeLogsIdempotent: it is proved only for logs without whitespace-only notes, because for those notes `optimizeLogs` is not idempotent (`Compaction.BlankNoteBreaksIdempotence`). The app itself never writes notes.
- AppHandlers.NewestIsNewest: maximality is proved only when every entry carries a timestamp or none does. With mixed entries the comparator is not a consistent order, and only "it is one of the entries" is stated.
- Dashboard.SaveEdit: editing a meal that has no analysis gives confidence 0 here. The source leaves the field undefined.
- Object identity: the source builds new objects rather than mutating its inputs. Here every value is immutable, so there is nothing to state.
