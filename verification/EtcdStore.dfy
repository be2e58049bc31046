/** The live key space of an etcd cluster, the revision-compared transactions of
    the client adapter, and the adapter itself. */
module EtcdStore {
  import opened Wrappers
  import opened PrefixRange

  datatype Kv = Kv(value: Bytes, rev: nat, lease: nat)

  /** All keys with their modification revision and lease, and the store revision. */
  datatype Store = Store(kvs: map<Bytes, Kv>, rev: nat)

  ghost predicate WellFormed(s: Store) {
    forall key | key in s.kvs :: 0 < s.kvs[key].rev <= s.rev
  }

  /** What a MOD comparison sees: zero stands for an absent key. */
  function ModRevision(s: Store, key: Bytes): nat {
    if key in s.kvs then s.kvs[key].rev else 0
  }

  function LeaseOf(s: Store, key: Bytes): nat {
    if key in s.kvs then s.kvs[key].lease else 0
  }

  function Put(s: Store, key: Bytes, value: Bytes, lease: nat): Store {
    Store(s.kvs[key := Kv(value, s.rev + 1, lease)], s.rev + 1)
  }

  function Delete(s: Store, key: Bytes): Store {
    if key in s.kvs then Store(s.kvs - {key}, s.rev + 1) else s
  }

  /** Revoking or expiring a lease deletes every key attached to it. */
  function RevokeLease(s: Store, lease: nat): Store {
    var attached := set key | key in s.kvs && s.kvs[key].lease == lease;
    if attached == {} then s else Store(s.kvs - attached, s.rev + 1)
  }

  function AttachLeaseIfCurrent(
    s: Store, key: Bytes, value: Bytes, expectedRev: nat, expectedLease: nat, lease: nat): (Store, bool)
  {
    if ModRevision(s, key) == expectedRev && LeaseOf(s, key) == expectedLease
    then (Put(s, key, value, lease), true)
    else (s, false)
  }

  function ReplaceIfRevision(s: Store, key: Bytes, value: Bytes, expectedRev: nat, lease: nat): (Store, Option<nat>) {
    if ModRevision(s, key) == expectedRev
    then (Put(s, key, value, lease), Some(s.rev + 1))
    else (s, None)
  }

  function DeleteIfRevision(s: Store, key: Bytes, expectedRev: nat): (Store, bool) {
    if ModRevision(s, key) == expectedRev then (Delete(s, key), true) else (s, false)
  }

  /** The records under a prefix. */
  function Under(s: Store, prefix: Bytes): map<Bytes, Kv> {
    map key | key in s.kvs && StartsWith(key, prefix) :: s.kvs[key]
  }

  lemma RevokeIsExact(s: Store, lease: nat)
    ensures (forall key | key in s.kvs :: s.kvs[key].lease != lease) ==> RevokeLease(s, lease) == s
    ensures forall key :: key in RevokeLease(s, lease).kvs <==> key in s.kvs && s.kvs[key].lease != lease
    ensures forall key | key in RevokeLease(s, lease).kvs :: RevokeLease(s, lease).kvs[key] == s.kvs[key]
  {
    var attached := set key | key in s.kvs && s.kvs[key].lease == lease;
    assert forall key :: key in attached <==> key in s.kvs && s.kvs[key].lease == lease;
    if attached != {} {
      var gone :| gone in attached;
    }
  }

  class EtcdClient {
    var store: Store

    constructor (store: Store)
      ensures this.store == store
    {
      this.store := store;
    }

    /** `get_snapshot`: a range read from the prefix to its computed range end
        returns the keys under the prefix, all of them and no others. */
    method GetSnapshot(prefix: Bytes) returns (records: map<Bytes, Kv>, revision: nat)
      ensures records == Under(store, prefix)
      ensures forall key :: key in records <==> key in store.kvs && prefix <= key
      ensures forall key | key in records :: records[key] == store.kvs[key]
      ensures revision == store.rev
    {
      var end := PrefixRangeEnd(prefix);
      records := map key | key in store.kvs && InRange(key, prefix, end) :: store.kvs[key];
      revision := store.rev;
    }

    method AttachLease(key: Bytes, value: Bytes, expectedRev: nat, expectedLease: nat, lease: nat) returns (attached: bool)
      modifies this
      ensures (store, attached) == AttachLeaseIfCurrent(old(store), key, value, expectedRev, expectedLease, lease)
      ensures attached ==> store.kvs[key] == Kv(value, old(store).rev + 1, lease)
      ensures forall other | other != key :: Get(store.kvs, other) == Get(old(store).kvs, other)
    {
      attached := ModRevision(store, key) == expectedRev && LeaseOf(store, key) == expectedLease;
      if attached {
        store := Store(store.kvs[key := Kv(value, store.rev + 1, lease)], store.rev + 1);
      }
    }

    /** Revoking a lease that no key carries changes nothing. */
    method Revoke(lease: nat)
      modifies this
      ensures (forall key | key in old(store).kvs :: old(store).kvs[key].lease != lease) ==> store == old(store)
      ensures forall key :: key in store.kvs <==> key in old(store).kvs && old(store).kvs[key].lease != lease
      ensures forall key | key in store.kvs :: store.kvs[key] == old(store).kvs[key]
    {
      RevokeIsExact(store, lease);
      store := RevokeLease(store, lease);
    }

    method Replace(key: Bytes, value: Bytes, expectedRev: nat, lease: nat) returns (revision: Option<nat>)
      modifies this
      ensures (store, revision) == ReplaceIfRevision(old(store), key, value, expectedRev, lease)
      ensures revision.Some? <==> expectedRev == if key in old(store).kvs then old(store).kvs[key].rev else 0
      ensures revision.Some? ==> revision.value == store.rev == old(store).rev + 1
      ensures revision.Some? ==> store.kvs == old(store).kvs[key := Kv(value, revision.value, lease)]
      ensures revision.None? ==> store == old(store)
    {
      if ModRevision(store, key) != expectedRev {
        return None;
      }
      store := Store(store.kvs[key := Kv(value, store.rev + 1, lease)], store.rev + 1);
      revision := Some(store.rev);
    }

    method DeleteRevision(key: Bytes, expectedRev: nat) returns (removed: bool)
      modifies this
      ensures (store, removed) == DeleteIfRevision(old(store), key, expectedRev)
      ensures removed <==> expectedRev == if key in old(store).kvs then old(store).kvs[key].rev else 0
      ensures store.kvs == if removed then old(store).kvs - {key} else old(store).kvs
      ensures key in old(store).kvs && removed ==> store.rev == old(store).rev + 1
      ensures !(key in old(store).kvs && removed) ==> store.rev == old(store).rev
    {
      removed := ModRevision(store, key) == expectedRev;
      if removed && key in store.kvs {
        store := Store(store.kvs - {key}, store.rev + 1);
      }
    }
  }
}
