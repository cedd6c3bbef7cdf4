/** The page's two `localStorage` helpers. The store is a map from keys to
    strings. `canRead` says whether `getItem` goes through or throws
    (storage disabled); whether a `setItem` goes through or throws (storage
    disabled, quota exceeded by this value) is decided call by call. */
module Storage {

  datatype Store = Store(entries: map<string, string>, canRead: bool)

  /** `loadFromLocalStorage`: the stored string, or "" when the key is absent
      (`getItem` returns null and `|| ''` replaces it) or the read throws. */
  function Load(st: Store, key: string): (v: string)
    ensures key in st.entries && st.canRead ==> v == st.entries[key]
    ensures key !in st.entries || !st.canRead ==> v == ""
  {
    if !st.canRead then ""
    else if key in st.entries then st.entries[key]
    else ""
  }

  /** `saveToLocalStorage`: overwrites one key when `setItem` goes through
      (`written`); a throwing write is swallowed and leaves the store as it was. */
  function Save(st: Store, key: string, value: string, written: bool): (st': Store)
    ensures st'.canRead == st.canRead
    ensures st'.entries.Keys == if written then st.entries.Keys + {key} else st.entries.Keys
    ensures forall k :: k in st.entries && k != key ==> k in st'.entries && st'.entries[k] == st.entries[k]
    ensures written ==> key in st'.entries && st'.entries[key] == value
    ensures !written ==> st' == st
  {
    if written then st.(entries := st.entries[key := value]) else st
  }

  /** Reading a key back after writing it gives what was written. */
  lemma LoadAfterSave(st: Store, key: string, value: string)
    requires st.canRead
    ensures Load(Save(st, key, value, true), key) == value
  {
  }

  /** Writing one key, whether or not it goes through, does not change what
      any other key reads. */
  lemma LoadOtherAfterSave(st: Store, key: string, other: string, value: string, written: bool)
    requires other != key
    ensures Load(Save(st, key, value, written), other) == Load(st, other)
  {
  }

  /** A later write to the same key hides an earlier one. */
  lemma SaveOverwrites(st: Store, key: string, v1: string, v2: string, written: bool)
    ensures Save(Save(st, key, v1, written), key, v2, true) == Save(st, key, v2, true)
  {
  }
}
