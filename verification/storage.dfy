/**
  The part of the browser's Web Storage interface (`localStorage`) that the
  storage-versioning routine uses: `getItem`, `setItem` and `clear`.

  A store is a finite map from string keys to string values. Every operation is
  total: storage that is unavailable or full is not modelled.
 */
module WebStorage {

  type Store = map<string, string>

  /** `None` stands for the `null` that `getItem` returns for a missing key. */
  datatype Option<+T> = None | Some(value: T)

  /** `getItem(key)`: the stored value, or null when the key is absent. */
  function GetItem(s: Store, key: string): (r: Option<string>)
    ensures r.None? <==> key !in s
    ensures r.Some? ==> key in s && s[key] == r.value
  {
    if key in s then Some(s[key]) else None
  }

  /** `setItem(key, value)`: adds the key or overwrites its value; no other entry changes. */
  function SetItem(s: Store, key: string, value: string): (r: Store)
    ensures r.Keys == s.Keys + {key}
    ensures GetItem(r, key) == Some(value)
    ensures forall k :: k in s && k != key ==> r[k] == s[k]
  {
    s[key := value]
  }

  /** `clear()`: removes every entry, whatever its key or value. */
  function Clear(s: Store): (r: Store)
    ensures forall k :: GetItem(r, k) == None
    ensures |r| == 0
  {
    map[]
  }
}
