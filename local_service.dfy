/** The device cache (services/localService.ts): one whole snapshot per user,
    under a namespaced key of the shared key-value store. */
module LocalService {
  import opened Model
  import opened Text
  import opened Storage

  const LocalPrefix := "nutrilife_local_v2_"

  /** `getLocalKey`. */
  function LocalKey(username: string): (k: string)
    ensures StartsWith(k, LocalPrefix) && k[|LocalPrefix|..] == username
  {
    LocalPrefix + username
  }

  /** Distinct users never share a cache entry. */
  lemma LocalKeyInjective(u: string, v: string)
    ensures LocalKey(u) == LocalKey(v) <==> u == v
  {
    if LocalKey(u) == LocalKey(v) {
      assert u == LocalKey(u)[|LocalPrefix|..];
    }
  }

  /** `getUserData` over the store's contents: nothing when the key is absent or
      holds something that is not a snapshot. */
  function Load(items: map<string, Stored>, username: string): (r: Option<Snapshot>)
    ensures r.Some? <==> LocalKey(username) in items && items[LocalKey(username)].Snap?
    ensures r.Some? ==> r.value == items[LocalKey(username)].snapshot
  {
    var key := LocalKey(username);
    if key in items && items[key].Snap? then Some(items[key].snapshot) else None
  }

  /** The contents after `saveUserData`: the user's entry replaced when the
      browser accepts the write, everything unchanged when it does not. */
  function Saved(items: map<string, Stored>, username: string, s: Snapshot, accepted: bool): map<string, Stored>
  {
    if accepted then items[LocalKey(username) := Snap(s)] else items
  }

  /** `saveUserData`; a refused write is swallowed. */
  method SaveUserData(store: KeyValueStore, username: string, s: Snapshot, accepted: bool)
    modifies store
    ensures store.items == Saved(old(store.items), username, s, accepted)
  {
    var _ := store.SetItem(LocalKey(username), Snap(s), accepted);
  }

  /** `getUserData`. */
  function GetUserData(store: KeyValueStore, username: string): (r: Option<Snapshot>)
    reads store
    ensures r == Load(store.items, username)
  {
    var raw := store.GetItem(LocalKey(username));
    if raw.Some? && raw.value.Snap? then Some(raw.value.snapshot) else None
  }

  /** `clearUserData`. */
  method ClearUserData(store: KeyValueStore, username: string)
    modifies store
    ensures store.items == old(store.items) - {LocalKey(username)}
  {
    store.RemoveItem(LocalKey(username));
  }

  /** Round trip: a save that the browser accepts is read back exactly, and no
      other user's entry is affected; a refused save changes nothing. */
  lemma {:induction false} LoadAfterSave(items: map<string, Stored>, u: string, v: string, s: Snapshot, accepted: bool)
    ensures Load(Saved(items, u, s, accepted), v) ==
            if accepted && u == v then Some(s) else Load(items, v)
  {
    LocalKeyInjective(u, v);
  }

  /** After clearing, the user has no cached snapshot; the others keep theirs. */
  lemma {:induction false} LoadAfterClear(items: map<string, Stored>, u: string, v: string)
    ensures Load(items - {LocalKey(u)}, v) == if u == v then None else Load(items, v)
  {
    LocalKeyInjective(u, v);
  }
}
