/** The browser's `localStorage`, shared by the local cache, the simulated
    cloud database and the account list. Values are kept already parsed: a
    stored JSON document is the structure it encodes, and `Text` stands for any
    other string, including one that does not parse as the expected shape. */
module Storage {
  import opened Model

  datatype Account = Account(password: string)

  datatype Stored =
    | Text(text: string)
    | Snap(snapshot: Snapshot)
    | CloudDb(users: map<string, Snapshot>)
    | UsersDb(accounts: map<string, Account>)

  class KeyValueStore {
    var items: map<string, Stored>

    constructor ()
      ensures items == map[]
    {
      items := map[];
    }

    /** `getItem(key)`: the stored value, or nothing. */
    function GetItem(key: string): (v: Option<Stored>)
      reads this
      ensures v.Some? <==> key in items
      ensures v.Some? ==> v.value == items[key]
    {
      if key in items then Some(items[key]) else None
    }

    /** `setItem(key, value)`; `accepted` is false when the browser refuses the
        write (quota exceeded), in which case it throws and nothing is written. */
    method SetItem(key: string, value: Stored, accepted: bool) returns (ok: bool)
      modifies this
      ensures ok == accepted
      ensures items == if accepted then old(items)[key := value] else old(items)
    {
      ok := accepted;
      if accepted {
        items := items[key := value];
      }
    }

    /** `removeItem(key)`. */
    method RemoveItem(key: string)
      modifies this
      ensures items == old(items) - {key}
    {
      items := items - {key};
    }
  }
}
