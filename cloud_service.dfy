/** The simulated remote store (services/cloudService.ts): one document, under
    a fixed key of the shared key-value store, mapping each username to the
    compacted snapshot last pushed for that user. */
module CloudService {
  import opened Model
  import opened Storage
  import opened Compaction

  const CloudDbKey := "nutrilife_cloud_database_v1"

  /** The retention and image cut-offs (day numbers) the caller's clock
      gives for the moment of the write. */
  datatype Cutoffs = Cutoffs(year: int, image: int)

  /** `JSON.parse(getItem(key) || '{}')`: a missing or empty database reads as
      empty; a value that is not a database makes the parse throw. */
  function ReadDb(items: map<string, Stored>): (r: Option<map<string, Snapshot>>)
    ensures CloudDbKey !in items || items[CloudDbKey] == Text("") ==> r == Some(map[])
    ensures CloudDbKey in items ==> (r.Some? <==> items[CloudDbKey].CloudDb? || items[CloudDbKey] == Text(""))
    ensures CloudDbKey in items && items[CloudDbKey].CloudDb? ==> r == Some(items[CloudDbKey].users)
  {
    if CloudDbKey !in items || items[CloudDbKey] == Text("") then Some(map[])
    else if items[CloudDbKey].CloudDb? then Some(items[CloudDbKey].users)
    else None
  }

  /** `getUserData`: the user's record, or nothing when the database or the
      entry is missing or the database cannot be read. */
  function GetUserData(items: map<string, Stored>, username: string): (r: Option<Snapshot>)
    ensures r.Some? <==> CloudDbKey in items && items[CloudDbKey].CloudDb? && username in items[CloudDbKey].users
    ensures r.Some? ==> r.value == items[CloudDbKey].users[username]
  {
    if CloudDbKey in items && items[CloudDbKey].CloudDb? && username in items[CloudDbKey].users
    then Some(items[CloudDbKey].users[username])
    else None
  }

  /** The record a push stores: logs compacted, the other four fields as
      given, stamped with the time of the write. */
  function Optimized(data: Dataset, now: int, cut: Cutoffs): Snapshot {
    Snapshot(data.(logs := OptimizeLogs(data.logs, cut.year, cut.image)), now)
  }

  /** Whether `saveUserData` succeeds on these contents: the database must be
      readable and the browser must accept the write. */
  predicate SaveSucceeds(items: map<string, Stored>, writeAccepted: bool) {
    ReadDb(items).Some? && writeAccepted
  }

  /** The contents after a push. */
  function AfterSave(items: map<string, Stored>, username: string, data: Dataset, now: int, cut: Cutoffs, writeAccepted: bool): map<string, Stored>
  {
    if SaveSucceeds(items, writeAccepted)
    then items[CloudDbKey := CloudDb(ReadDb(items).value[username := Optimized(data, now, cut)])]
    else items
  }

  /** `saveUserData`: read the database, put the compacted record under the
      username, write the database back; any failure is reported as `false` and
      leaves the store as it was. */
  method SaveUserData(store: KeyValueStore, username: string, data: Dataset, now: int, cut: Cutoffs, writeAccepted: bool)
    returns (ok: bool)
    modifies store
    ensures ok == SaveSucceeds(old(store.items), writeAccepted)
    ensures store.items == AfterSave(old(store.items), username, data, now, cut, writeAccepted)
  {
    var db := ReadDb(store.items);
    if db.None? {
      return false;
    }
    var record := Optimized(data, now, cut);
    var users := db.value[username := record];
    ok := store.SetItem(CloudDbKey, CloudDb(users), writeAccepted);
  }

  /** After a successful push the user's record is exactly the compacted
      data stamped with the time of the write: profile, weight history,
      schedule and presets unchanged, the logs those `optimizeLogs` keeps. */
  lemma {:induction false} GetAfterSave(items: map<string, Stored>, username: string, data: Dataset, now: int, cut: Cutoffs, writeAccepted: bool)
    requires SaveSucceeds(items, writeAccepted)
    ensures var r := GetUserData(AfterSave(items, username, data, now, cut, writeAccepted), username);
      && r.Some? && r.value.lastSynced == now
      && r.value.data.profile == data.profile
      && r.value.data.weightHistory == data.weightHistory
      && r.value.data.schedule == data.schedule
      && r.value.data.presetFoods == data.presetFoods
      && r.value.data.logs == OptimizeLogs(data.logs, cut.year, cut.image)
  {
    var after := AfterSave(items, username, data, now, cut, writeAccepted);
    assert after[CloudDbKey].users[username] == Optimized(data, now, cut);
  }

  /** A push writes only the pushing user's entry: every other user reads back
      what they had, whether or not the push succeeded. */
  lemma {:induction false} SaveIsolatesUsers(items: map<string, Stored>, username: string, other: string, data: Dataset, now: int, cut: Cutoffs, writeAccepted: bool)
    requires other != username
    ensures GetUserData(AfterSave(items, username, data, now, cut, writeAccepted), other) == GetUserData(items, other)
  {
    if SaveSucceeds(items, writeAccepted) {
      var after := AfterSave(items, username, data, now, cut, writeAccepted);
      assert after[CloudDbKey].users == ReadDb(items).value[username := Optimized(data, now, cut)];
    }
  }

  /** A push touches no key of the store other than the database's own. */
  lemma {:induction false} SaveTouchesOnlyCloudDb(items: map<string, Stored>, username: string, data: Dataset, now: int, cut: Cutoffs, writeAccepted: bool, key: string)
    requires key != CloudDbKey
    ensures var after := AfterSave(items, username, data, now, cut, writeAccepted);
      (key in after <==> key in items) && (key in items ==> after[key] == items[key])
  {
  }
}
