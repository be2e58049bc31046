/** The node keys of an etcd cluster as a history of revisioned events, and what
    it means for a registry entry to reflect one of those events. */
module EtcdHistory {
  import opened Wrappers
  import opened Registry

  /** A key as it arrives: bytes that decode as UTF-8 text, or bytes that do not. */
  datatype RawKey = Undecodable(tag: nat) | Text(text: string)

  /** A stored value, as `node_from_etcd` reads it under the endpoint policy. */
  datatype Payload = Malformed | Registration(status: Status, details: Details)

  datatype Change = Put(payload: Payload) | Delete

  datatype Event = Event(key: RawKey, rev: nat, change: Change)

  type History = seq<Event>

  /** `_node_id`: keys that are not text, outside the prefix or bare are skipped. */
  function NodeId(key: RawKey, prefix: string): Option<string> {
    if key.Text? && prefix < key.text then Some(key.text[|prefix|..]) else None
  }

  function KeyOf(prefix: string, id: string): RawKey {
    Text(prefix + id)
  }

  /** Each node id has exactly one key. */
  lemma NodeIdInverse(key: RawKey, prefix: string, id: string)
    ensures NodeId(key, prefix) == Some(id) <==> id != "" && key == KeyOf(prefix, id)
  {
    if key.Text? && prefix < key.text {
      assert key.text == prefix + key.text[|prefix|..];
    }
    if id != "" {
      assert prefix < prefix + id && (prefix + id)[|prefix|..] == id;
    }
  }

  /** A cluster's history at store revision `now`: in revision order, and each
      key's revisions strictly increase. */
  ghost predicate WellFormed(h: History, now: nat) {
    && (forall i | 0 <= i < |h| :: 0 < h[i].rev <= now)
    && (forall i, j | 0 <= i < j < |h| :: h[i].rev <= h[j].rev)
    && (forall i, j | 0 <= i < j < |h| && h[i].key == h[j].key :: h[i].rev < h[j].rev)
  }

  /** The last event of `key` at or below revision `upTo`. */
  function Newest(h: History, key: RawKey, upTo: nat): Option<Event> {
    if h == [] then None
    else
      var last := h[|h| - 1];
      if last.key == key && last.rev <= upTo then Some(last) else Newest(h[..|h| - 1], key, upTo)
  }

  ghost predicate Concerns(e: Event, key: RawKey, upTo: nat) {
    e.key == key && e.rev <= upTo
  }

  lemma {:induction false} NewestIsMember(h: History, key: RawKey, upTo: nat)
    ensures Newest(h, key, upTo).Some? ==>
              Newest(h, key, upTo).value in h && Concerns(Newest(h, key, upTo).value, key, upTo)
    ensures Newest(h, key, upTo).None? ==> forall e | e in h :: !Concerns(e, key, upTo)
  {
    if h != [] {
      NewestIsMember(h[..|h| - 1], key, upTo);
      assert h == h[..|h| - 1] + [h[|h| - 1]];
    }
  }

  lemma {:induction false} NewestIsMaximal(h: History, key: RawKey, upTo: nat, now: nat)
    requires WellFormed(h, now)
    ensures Newest(h, key, upTo).Some? ==>
              forall e | e in h && Concerns(e, key, upTo) :: e.rev <= Newest(h, key, upTo).value.rev
  {
    if h != [] {
      assert h == h[..|h| - 1] + [h[|h| - 1]];
      NewestIsMaximal(h[..|h| - 1], key, upTo, now);
    }
  }

  /** Two events of one key with the same revision are the same event. */
  lemma SameRevision(h: History, now: nat, a: Event, b: Event)
    requires WellFormed(h, now) && a in h && b in h && a.key == b.key && a.rev == b.rev
    ensures a == b
  {
    var i :| 0 <= i < |h| && h[i] == a;
    var j :| 0 <= j < |h| && h[j] == b;
  }

  /** An event that no other event of its key lies above, up to `upTo`, is the newest. */
  lemma NewestUnique(h: History, now: nat, e: Event, upTo: nat)
    requires WellFormed(h, now) && e in h && e.rev <= upTo
    requires forall f | f in h && Concerns(f, e.key, upTo) :: f.rev <= e.rev
    ensures Newest(h, e.key, upTo) == Some(e)
  {
    NewestIsMember(h, e.key, upTo);
    NewestIsMaximal(h, e.key, upTo, now);
    assert Concerns(e, e.key, upTo);
    SameRevision(h, now, Newest(h, e.key, upTo).value, e);
  }

  /** Raising the bound past no further event of the key changes nothing. */
  lemma NewestStable(h: History, now: nat, key: RawKey, low: nat, high: nat)
    requires WellFormed(h, now) && low <= high
    requires forall e | e in h && e.key == key && low < e.rev :: high < e.rev
    ensures Newest(h, key, high) == Newest(h, key, low)
  {
    NewestIsMember(h, key, low);
    NewestIsMember(h, key, high);
    var at := Newest(h, key, low);
    if at.Some? {
      NewestIsMaximal(h, key, low, now);
      assert forall f | f in h && Concerns(f, key, high) :: Concerns(f, key, low);
      NewestUnique(h, now, at.value, high);
    } else if Newest(h, key, high).Some? {
      assert Concerns(Newest(h, key, high).value, key, low);
    }
  }

  /** Events above the bound are invisible. */
  lemma {:induction false} NewestIgnoresLater(h: History, more: seq<Event>, key: RawKey, upTo: nat)
    requires forall e | e in more :: upTo < e.rev
    ensures Newest(h + more, key, upTo) == Newest(h, key, upTo)
  {
    if more == [] {
      assert h + more == h;
    } else {
      assert (h + more)[..|h + more| - 1] == h + more[..|more| - 1];
      assert (h + more)[|h + more| - 1] in more;
      NewestIgnoresLater(h, more[..|more| - 1], key, upTo);
    }
  }

  /** The status an entry may show for a stored status: a locally probed state
      stays a locally probed state, every other state is authoritative. */
  ghost predicate StatusAgrees(stored: Status, shown: Status) {
    if Liveness(stored) then Liveness(shown) else shown == stored
  }

  /** What an entry must look like when `event` is the last word on its key. A
      malformed value says nothing, so it constrains nothing. */
  ghost predicate Shows(event: Option<Event>, entry: Option<Node>) {
    match event
    case None => entry.None? || entry.value.status.Draining?
    case Some(Event(_, _, Delete)) => entry.None? || entry.value.status.Draining?
    case Some(Event(_, _, Put(Malformed))) => true
    case Some(Event(_, _, Put(Registration(status, details)))) =>
      if entry.None? then status.Draining?
      else entry.value.details == details && StatusAgrees(status, entry.value.status)
  }
}
