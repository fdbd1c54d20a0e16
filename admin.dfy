/** Account administration (components/AdminDashboard.tsx): the account list
    is one document in the shared key-value store; removing an account also
    removes every key that starts with `nutrilife_<username>_`. */
module Admin {
  import opened Model
  import opened Text
  import opened Storage
  import LocalService
  import CloudService

  const UsersDbKey := "nutrilife_users_db"
  const AdminName := "admin"

  /** `JSON.parse(getItem('nutrilife_users_db') || '{}')`: a missing or empty
      list reads as empty; a value that is not an account list makes the parse
      throw, which aborts the handler. */
  function ReadUsers(items: map<string, Stored>): (r: Option<map<string, Account>>)
    ensures UsersDbKey !in items || items[UsersDbKey] == Text("") ==> r == Some(map[])
    ensures UsersDbKey in items ==> (r.Some? <==> items[UsersDbKey].UsersDb? || items[UsersDbKey] == Text(""))
    ensures UsersDbKey in items && items[UsersDbKey].UsersDb? ==> r == Some(items[UsersDbKey].accounts)
  {
    if UsersDbKey !in items || items[UsersDbKey] == Text("") then Some(map[])
    else if items[UsersDbKey].UsersDb? then Some(items[UsersDbKey].accounts)
    else None
  }

  /** A row of the admin's user list. */
  datatype UserRow = UserRow(username: string, password: string)

  /** `loadUsers`: one row per account, with its password; `None` when the
      list cannot be read. */
  method LoadUsers(store: KeyValueStore) returns (rows: Option<seq<UserRow>>)
    ensures ReadUsers(store.items).None? <==> rows.None?
    ensures rows.Some? ==>
      var db := ReadUsers(store.items).value;
      && |rows.value| == |db|
      && (forall u :: u in db <==> exists i :: 0 <= i < |rows.value| && rows.value[i].username == u)
      && (forall i :: 0 <= i < |rows.value| ==>
            rows.value[i].username in db && rows.value[i].password == db[rows.value[i].username].password)
      && (forall i, j :: 0 <= i < j < |rows.value| ==> rows.value[i].username != rows.value[j].username)
  {
    var read := ReadUsers(store.items);
    if read.None? {
      return None;
    }
    var db := read.value;
    var pending := db.Keys;
    var list: seq<UserRow> := [];
    while pending != {}
      invariant pending <= db.Keys
      invariant |list| + |pending| == |db|
      invariant forall u :: u in db ==> u in pending || exists i :: 0 <= i < |list| && list[i].username == u
      invariant forall i :: 0 <= i < |list| ==>
        list[i].username in db && list[i].username !in pending && list[i].password == db[list[i].username].password
      invariant forall i, j :: 0 <= i < j < |list| ==> list[i].username != list[j].username
      decreases pending
    {
      var u :| u in pending;
      ghost var prev := list;
      list := list + [UserRow(u, db[u].password)];
      pending := pending - {u};
      assert list[|prev|].username == u;
      assert forall i :: 0 <= i < |prev| ==> list[i] == prev[i];
    }
    rows := Some(list);
  }

  /** The keys removed with an account. */
  function DataPrefix(username: string): string {
    "nutrilife_" + username + "_"
  }

  /** The store without the keys that start with the prefix. */
  function Purge(items: map<string, Stored>, prefix: string): (r: map<string, Stored>)
    ensures forall k :: k in r <==> k in items && !StartsWith(k, prefix)
    ensures forall k :: k in r ==> r[k] == items[k]
  {
    map k | k in items && !StartsWith(k, prefix) :: items[k]
  }

  datatype DeleteOutcome = AdminRefused | Cancelled | Unreadable | WriteRefused | Deleted

  /** The store after the account list has been rewritten without the user. */
  function WithoutAccount(items: map<string, Stored>, db: map<string, Account>, username: string): map<string, Stored> {
    items[UsersDbKey := UsersDb(db - {username})]
  }

  /** `handleDeleteUser`. Deleting `admin` is refused and so is an unconfirmed
      delete; otherwise the account goes from the list, and then every key that
      starts with `nutrilife_<username>_`, collected first, is removed. */
  method DeleteUser(store: KeyValueStore, username: string, confirmed: bool, writeAccepted: bool)
    returns (outcome: DeleteOutcome)
    modifies store
    ensures username == AdminName ==> outcome == AdminRefused && store.items == old(store.items)
    ensures username != AdminName && !confirmed ==> outcome == Cancelled && store.items == old(store.items)
    ensures outcome == Deleted <==>
      username != AdminName && confirmed && ReadUsers(old(store.items)).Some? && writeAccepted
    ensures outcome != Deleted ==> store.items == old(store.items)
    ensures outcome == Deleted ==>
      store.items == Purge(WithoutAccount(old(store.items), ReadUsers(old(store.items)).value, username), DataPrefix(username))
  {
    if username == AdminName {
      return AdminRefused;
    }
    if !confirmed {
      return Cancelled;
    }
    var read := ReadUsers(store.items);
    if read.None? {
      return Unreadable;
    }
    var ok := store.SetItem(UsersDbKey, UsersDb(read.value - {username}), writeAccepted);
    if !ok {
      return WriteRefused;
    }
    ghost var written := store.items;
    var prefix := DataPrefix(username);

    // First pass: collect the matching keys.
    var keysToRemove: seq<string> := [];
    var pending := store.items.Keys;
    while pending != {}
      invariant store.items == written
      invariant pending <= written.Keys
      invariant forall k :: k in keysToRemove ==> k in written && StartsWith(k, prefix)
      invariant forall k :: k in written && StartsWith(k, prefix) && k !in pending ==> k in keysToRemove
      decreases pending
    {
      var k :| k in pending;
      if StartsWith(k, prefix) {
        keysToRemove := keysToRemove + [k];
      }
      pending := pending - {k};
    }

    // Second pass: remove them.
    var i := 0;
    while i < |keysToRemove|
      invariant 0 <= i <= |keysToRemove|
      invariant store.items == written - set j | 0 <= j < i :: keysToRemove[j]
    {
      store.RemoveItem(keysToRemove[i]);
      i := i + 1;
    }
    assert store.items == Purge(written, prefix);
    outcome := Deleted;
  }

  /** Deleting an account leaves every other account as it was. */
  lemma DeleteKeepsOtherAccounts(items: map<string, Stored>, username: string, other: string)
    requires ReadUsers(items).Some? && other != username
    ensures var after := Purge(WithoutAccount(items, ReadUsers(items).value, username), DataPrefix(username));
      var before := ReadUsers(items).value;
      StartsWith(UsersDbKey, DataPrefix(username)) ||
        (ReadUsers(after).Some? && username !in ReadUsers(after).value &&
         (other in ReadUsers(after).value <==> other in before) &&
         (other in before ==> ReadUsers(after).value[other] == before[other]))
  {
  }

  /** The user's own keys (`nutrilife_<user>_theme`, `nutrilife_<user>_lang`)
      are removed and every key without the prefix survives unchanged. */
  lemma DeleteRemovesExactlyPrefixed(items: map<string, Stored>, username: string, key: string)
    requires ReadUsers(items).Some? && key != UsersDbKey
    ensures var after := Purge(WithoutAccount(items, ReadUsers(items).value, username), DataPrefix(username));
      && (StartsWith(key, DataPrefix(username)) ==> key !in after)
      && (!StartsWith(key, DataPrefix(username)) ==> (key in after <==> key in items) && (key in items ==> after[key] == items[key]))
      && DataPrefix(username) + "theme" !in after
      && DataPrefix(username) + "lang" !in after
  {
    var p := DataPrefix(username);
    assert (p + "theme")[..|p|] == p;
    assert (p + "lang")[..|p|] == p;
  }

  /** The device cache key of a user survives the user's deletion unless the
      username itself begins with "local". */
  lemma {:induction false} CacheSurvivesDelete(username: string)
    requires !StartsWith(username, "local")
    ensures !StartsWith(LocalService.LocalKey(username), DataPrefix(username))
  {
    var k := LocalService.LocalKey(username);
    var p := DataPrefix(username);
    // `username + "_"` would have to be a prefix of `"local_v2_" + username`.
    assert |p| <= |k|;
    if |username| < 5 {
      assert p[10 + |username|] == '_';
      assert k[10 + |username|] == "local_v2_"[|username|];
      assert k[..|p|][10 + |username|] != p[10 + |username|];
    } else {
      assert username[..5] != "local";
      var i :| 0 <= i < 5 && username[i] != "local"[i];
      assert p[10 + i] == username[i];
      assert k[10 + i] == "local_v2_"[i];
      assert k[..|p|][10 + i] != p[10 + i];
    }
  }

  /** The prefix test lets one deletion reach another account's keys: deleting
      `u` removes the keys of a user named `u_x`. */
  lemma DeleteReachesUnderscoreNames(username: string, suffix: string, key: string)
    ensures StartsWith(DataPrefix(username + "_" + suffix) + key, DataPrefix(username))
  {
    var p := DataPrefix(username);
    var q := DataPrefix(username + "_" + suffix) + key;
    assert q == p + suffix + "_" + key;
    assert q[..|p|] == p;
  }

  /** Deleting an account named `cloud` removes the whole cloud database,
      every user's record with it. */
  lemma DeletingCloudRemovesCloudDb(items: map<string, Stored>)
    requires ReadUsers(items).Some?
    ensures CloudService.CloudDbKey !in Purge(WithoutAccount(items, ReadUsers(items).value, "cloud"), DataPrefix("cloud"))
  {
    assert CloudService.CloudDbKey[..|DataPrefix("cloud")|] == DataPrefix("cloud");
  }

  /** Deleting an account named `users` removes the account list itself,
      and with it every account. */
  lemma DeletingUsersRemovesAccountList(items: map<string, Stored>)
    requires ReadUsers(items).Some?
    ensures var after := Purge(WithoutAccount(items, ReadUsers(items).value, "users"), DataPrefix("users"));
      UsersDbKey !in after && ReadUsers(after) == Some(map[])
  {
    assert UsersDbKey[..|DataPrefix("users")|] == DataPrefix("users");
  }

  /** Deleting an account named `local` removes every user's device cache,
      since every cache key starts with `nutrilife_local_`. */
  lemma DeletingLocalRemovesEveryCache(items: map<string, Stored>, other: string)
    requires ReadUsers(items).Some?
    ensures LocalService.LocalKey(other) !in Purge(WithoutAccount(items, ReadUsers(items).value, "local"), DataPrefix("local"))
  {
    assert LocalService.LocalKey(other)[..|DataPrefix("local")|] == DataPrefix("local");
  }

  datatype AddOutcome = MissingField | Exists | AddUnreadable | AddWriteRefused | Added

  /** `handleAddUser`: an empty username or password, an unreadable list, an
      existing username or a refused write change nothing; otherwise exactly
      one account is inserted. */
  method AddUser(store: KeyValueStore, username: string, password: string, writeAccepted: bool)
    returns (outcome: AddOutcome)
    modifies store
    ensures username == "" || password == "" ==> outcome == MissingField
    ensures outcome == Exists <==>
      username != "" && password != "" && ReadUsers(old(store.items)).Some? && username in ReadUsers(old(store.items)).value
    ensures outcome == Added <==>
      && username != "" && password != "" && ReadUsers(old(store.items)).Some?
      && username !in ReadUsers(old(store.items)).value && writeAccepted
    ensures outcome != Added ==> store.items == old(store.items)
    ensures outcome == Added ==>
      store.items == old(store.items)[UsersDbKey := UsersDb(ReadUsers(old(store.items)).value[username := Account(password)])]
  {
    if username == "" || password == "" {
      return MissingField;
    }
    var read := ReadUsers(store.items);
    if read.None? {
      return AddUnreadable;
    }
    if username in read.value {
      return Exists;
    }
    var ok := store.SetItem(UsersDbKey, UsersDb(read.value[username := Account(password)]), writeAccepted);
    outcome := if ok then Added else AddWriteRefused;
  }

  /** After a successful add, the new account has the given password and every
      other account reads back as before. */
  lemma AddedAccount(items: map<string, Stored>, username: string, password: string, other: string)
    requires ReadUsers(items).Some?
    ensures var after := items[UsersDbKey := UsersDb(ReadUsers(items).value[username := Account(password)])];
      && ReadUsers(after).Some?
      && username in ReadUsers(after).value && ReadUsers(after).value[username].password == password
      && (other != username ==> (other in ReadUsers(after).value <==> other in ReadUsers(items).value))
      && (other != username && other in ReadUsers(items).value ==> ReadUsers(after).value[other] == ReadUsers(items).value[other])
  {
  }
}
