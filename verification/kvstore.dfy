/** The RocksDB-backed key-value store (`kvstore/store.go`) as an immutable
    map. The database call under each operation is an oracle `Disk`: it
    either goes through or fails with RocksDB's error text. */
module KVStore {
  import opened Wrappers
  import opened Errors

  type Store = map<string, string>

  /** How the underlying RocksDB call behaves this time. */
  datatype Disk = Healthy | Faulty(reason: string)

  /** A store together with the `error` the operation returned. */
  datatype Step = Step(store: Store, result: Outcome<Error>)

  /** The `(string, error)` pair `Get` returns. */
  datatype Lookup = Lookup(value: string, err: Option<Error>)

  /** The value under `key`, if any. */
  function Find(s: Store, key: string): Option<string>
  {
    if key in s then Some(s[key]) else None
  }

  /** Two stores are equal exactly when they agree on every key. */
  lemma StoreExtensionality(s: Store, t: Store)
    requires forall k :: Find(s, k) == Find(t, k)
    ensures s == t
  {
    assert s.Keys == t.Keys by {
      forall k ensures k in s <==> k in t {
        assert Find(s, k) == Find(t, k);
      }
    }
    forall k | k in s ensures s[k] == t[k] {
      assert Find(s, k) == Find(t, k);
    }
  }

  /** `Set`: a successful Put binds `key` to `value` and touches no other key;
      a failed Put changes nothing and returns RocksDB's error. */
  function Set(s: Store, key: string, value: string, disk: Disk): (r: Step)
    ensures disk.Healthy? ==> r.result == Pass && Find(r.store, key) == Some(value)
    ensures disk.Healthy? ==> forall k :: k != key ==> Find(r.store, k) == Find(s, k)
    ensures disk.Faulty? ==> r.store == s && r.result == Fail(Opaque(disk.reason))
  {
    match disk
    case Healthy => Step(s[key := value], Pass)
    case Faulty(reason) => Step(s, Fail(Opaque(reason)))
  }

  /** `Get`: a stored value (possibly empty) comes back without error; an
      absent key gives `""` with "key not found"; a failed read gives `""`
      with RocksDB's error. */
  function Get(s: Store, key: string, disk: Disk): (r: Lookup)
    ensures r.err.Some? ==> r.value == ""
    ensures disk.Faulty? ==> r.err == Some(Opaque(disk.reason))
    ensures disk.Healthy? ==> (r.err.None? <==> key in s)
    ensures disk.Healthy? && key in s ==> r.value == s[key]
    ensures disk.Healthy? && key !in s ==> r.err == Some(KeyNotFound)
  {
    match disk
    case Faulty(reason) => Lookup("", Some(Opaque(reason)))
    case Healthy => if key in s then Lookup(s[key], None) else Lookup("", Some(KeyNotFound))
  }

  /** Read-your-write: after a successful `Set(k, v)`, `Get(k)` returns `(v, nil)`. */
  lemma SetThenGet(s: Store, key: string, value: string)
    ensures Get(Set(s, key, value, Healthy).store, key, Healthy) == Lookup(value, None)
  {
  }

  /** `Set(k, v)` leaves every other key's `Get` result as it was. */
  lemma SetLeavesOtherKeys(s: Store, key: string, value: string, disk: Disk, other: string, readDisk: Disk)
    requires other != key
    ensures Get(Set(s, key, value, disk).store, other, readDisk) == Get(s, other, readDisk)
  {
  }

  /** Last write wins: of two successful writes to one key, the later is read back. */
  lemma LastWriteWins(s: Store, key: string, v1: string, v2: string)
    ensures Get(Set(Set(s, key, v1, Healthy).store, key, v2, Healthy).store, key, Healthy) == Lookup(v2, None)
  {
  }

  /** `Set(k, v)` twice leaves the same store as once. */
  lemma SetIdempotent(s: Store, key: string, value: string, disk: Disk)
    ensures Set(Set(s, key, value, disk).store, key, value, disk) == Set(s, key, value, disk)
  {
  }

  /** A key stored with the empty value is told apart from an absent key: the
      first reads back `("", nil)`, the second `("", "key not found")`. */
  lemma EmptyValueIsNotAbsent(s: Store, present: string, absent: string)
    requires present in s && s[present] == "" && absent !in s
    ensures Get(s, present, Healthy) == Lookup("", None)
    ensures Get(s, absent, Healthy) == Lookup("", Some(KeyNotFound))
    ensures Get(s, present, Healthy) != Get(s, absent, Healthy)
  {
  }
}
