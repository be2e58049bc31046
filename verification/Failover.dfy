/** The failover loops of the chat routes: `_proxy_non_streaming`,
    `_stream_completion` and the streaming session that the latter hands on.
    What a request does to the rest of the proxy is its log of events. The
    selector, the backends and the clock are parameters. */
module Failover {
  import opened Wrappers

  datatype Failure = Transport(detail: string) | ServerError(status: nat) | HandshakeTimeout | Other(detail: string)

  /** How one backend call ends. `renders` is whether a JSON response can be built
      from the content; an answer holding NaN, for one, cannot be rendered. */
  datatype Outcome =
    | Answered(status: nat, renders: bool)
    | Stalled                   // a timeout
    | Broke(detail: string)     // any other transport error
    | Raised(detail: string)    // an exception of another kind

  /** The k-th selection of the request: a node outside the excluded set, or none. */
  type Selector = (nat, set<string>) -> Option<string>
  type Backend = (nat, string) -> Outcome
  /** Readings of the event-loop clock: 2k opens turn k, 2k + 1 starts its handshake. */
  type Clock = nat -> int

  datatype Event =
    | Selected(excluded: set<string>, node: string)
    | NoneSelected(excluded: set<string>)
    | Requested(node: string)
    | Retried(node: string)
    | Succeeded(node: string)
    | FailedOn(node: string)
    | Freed(node: string)

  datatype Reply =
    | Relayed(status: nat)
    | Streaming(node: string)
    | Failed(failure: Failure)
    | Exhausted(failure: Failure, attempts: nat)
    | NoNode
    | RaisedRuntimeError

  ghost predicate NeverExcluded(select: Selector) {
    forall k, excluded :: select(k, excluded).Some? ==> select(k, excluded).value !in excluded
  }

  predicate Success(status: nat) {
    200 <= status < 300
  }

  /** `_is_retryable`: transport errors, which include timeouts, and 5xx answers. */
  predicate Retryable(failure: Failure) {
    !failure.Other?
  }

  function UnrenderableContent(): Failure {
    Other("content cannot be rendered")
  }

  /** What one non-streaming attempt raises, if anything. */
  function PlainFailure(outcome: Outcome): Option<Failure> {
    match outcome
    case Broke(detail) => Some(Transport(detail))
    case Raised(detail) => Some(Other(detail))
    case Stalled => Some(Transport("read timeout"))
    case Answered(status, renders) =>
      if status >= 500 then Some(ServerError(status))
      else if !renders then Some(UnrenderableContent())
      else None
  }

  /** What one streaming handshake raises; a 2xx answer is not rendered. */
  function HandshakeFailure(outcome: Outcome, late: bool): Option<Failure> {
    if late || outcome.Stalled? then Some(HandshakeTimeout)
    else if outcome.Answered? && Success(outcome.status) then None
    else PlainFailure(outcome)
  }

  // ---------------------------------------------------------------- the discipline

  /** Reservations taken and not yet given back. */
  function Held(log: seq<Event>): int {
    if log == [] then 0
    else
      var n := |log| - 1;
      Held(log[..n]) + (if log[n].Selected? then 1 else if log[n].Freed? then -1 else 0)
  }

  /** The nodes attempted, in order. */
  function Tried(log: seq<Event>): seq<string> {
    if log == [] then []
    else
      var n := |log| - 1;
      Tried(log[..n]) + (if log[n].Selected? then [log[n].node] else [])
  }

  function Nodes(tried: seq<string>): set<string> {
    set node | node in tried
  }

  /** The event may follow the past: nothing is held when a node is selected, the
      exclusions are the nodes tried so far, and a reservation is given back only
      while held. */
  ghost predicate Fits(past: seq<Event>, event: Event) {
    var tried := Tried(past);
    match event
    case Selected(excluded, node) => Held(past) == 0 && excluded == Nodes(tried) && node !in tried
    case NoneSelected(excluded) => Held(past) == 0 && excluded == Nodes(tried)
    case Requested(node) => Held(past) == 1 && tried == [node]
    case Retried(node) => Held(past) == 1 && |tried| > 1 && tried[|tried| - 1] == node
    case Succeeded(node) => Held(past) == 1 && tried != [] && tried[|tried| - 1] == node
    case FailedOn(node) => tried != [] && tried[|tried| - 1] == node
    case Freed(node) => Held(past) == 1 && tried != [] && tried[|tried| - 1] == node
  }

  ghost predicate Disciplined(log: seq<Event>) {
    forall k | 0 <= k < |log| :: Fits(log[..k], log[k])
  }

  lemma Extend(log: seq<Event>, event: Event)
    requires Disciplined(log) && Fits(log, event)
    ensures Disciplined(log + [event])
    ensures Held(log + [event]) == Held(log) + (if event.Selected? then 1 else if event.Freed? then -1 else 0)
    ensures Tried(log + [event]) == Tried(log) + (if event.Selected? then [event.node] else [])
  {
    hide Fits;
    var longer := log + [event];
    assert longer[..|log|] == log;
    forall k | 0 <= k < |longer| ensures Fits(longer[..k], longer[k]) {
      if k < |log| {
        assert longer[..k] == log[..k];
      }
    }
  }

  /** How often the log gives back the reservation of the node. */
  function Frees(log: seq<Event>, node: string): nat {
    if log == [] then 0
    else Frees(log[..|log| - 1], node) + (if log[|log| - 1] == Freed(node) then 1 else 0)
  }

  /** Whatever keeps the discipline tries pairwise different nodes, holds at most
      one reservation at a time, and gives each one back exactly once, save the
      last while it is still held. */
  lemma {:induction false} DisciplinePays(log: seq<Event>, node: string)
    requires Disciplined(log)
    ensures 0 <= Held(log) <= 1 && (Held(log) == 1 ==> Tried(log) != [])
    ensures forall i, j | 0 <= i < j < |Tried(log)| :: Tried(log)[i] != Tried(log)[j]
    ensures Frees(log, node) ==
            (if node !in Tried(log) then 0
             else if Held(log) == 1 && node == Tried(log)[|Tried(log)| - 1] then 0
             else 1)
  {
    if log != [] {
      var n := |log| - 1;
      var past := log[..n];
      assert Disciplined(past) by {
        forall k | 0 <= k < |past| ensures Fits(past[..k], past[k]) {
          assert past[..k] == log[..k];
        }
      }
      DisciplinePays(past, node);
      assert Fits(past, log[n]);
      var tried := Tried(past);
      if Held(past) == 1 {
        LastIsNew(tried, node);
      }
    }
  }

  lemma LastIsNew(tried: seq<string>, node: string)
    requires tried != []
    requires forall i, j | 0 <= i < j < |tried| :: tried[i] != tried[j]
    ensures node in tried <==> node == tried[|tried| - 1] || node in tried[..|tried| - 1]
    ensures tried[|tried| - 1] !in tried[..|tried| - 1]
  {
  }

  // ---------------------------------------------------------------- the answer

  /** The attempts of a request: each node is what the selector gave for the
      exclusions of that moment, and every attempt but the last failed in a way
      that is retried. */
  ghost predicate Attempts(tried: seq<string>, select: Selector, failures: seq<Option<Failure>>) {
    && |failures| == |tried|
    && (forall i | 0 <= i < |tried| :: select(i, Nodes(tried[..i])) == Some(tried[i]))
    && (forall i | 0 <= i < |tried| - 1 :: failures[i].Some? && Retryable(failures[i].value))
  }

  /** The reply belongs to these attempts. `over` is whether time has run out
      before another attempt; `status` is the last backend's. */
  ghost predicate Answers(
    reply: Reply, tried: seq<string>, failures: seq<Option<Failure>>, select: Selector,
    limit: nat, over: bool)
    requires |failures| == |tried|
  {
    var n := |tried|;
    var stopped := n == limit || over || select(n, Nodes(tried)).None?;
    match reply
    case RaisedRuntimeError => n == 0 && (limit == 0 || over)
    case NoNode => n == 0 < limit && !over && select(0, {}).None?
    case Exhausted(failure, attempts) =>
      attempts == n > 0 && failures[n - 1] == Some(failure) && Retryable(failure) && stopped
    case Failed(failure) => n > 0 && failures[n - 1] == Some(failure) && !Retryable(failure)
    case Relayed(_) => n > 0 && failures[n - 1].None?
    case Streaming(node) => n > 0 && failures[n - 1].None? && node == tried[n - 1]
  }

  function PlainFailures(tried: seq<string>, backend: Backend): seq<Option<Failure>> {
    seq(|tried|, i requires 0 <= i < |tried| => PlainFailure(backend(i, tried[i])))
  }

  ghost predicate PlainExplained(
    reply: Reply, tried: seq<string>, select: Selector, backend: Backend, limit: nat)
  {
    && |tried| <= limit
    && Attempts(tried, select, PlainFailures(tried, backend))
    && Answers(reply, tried, PlainFailures(tried, backend), select, limit, false)
    && !reply.Streaming?
    && (reply.Relayed? ==> backend(|tried| - 1, tried[|tried| - 1]) == Answered(reply.status, true))
  }

  function Handshakes(tried: seq<string>, backend: Backend, clock: Clock, deadline: int): seq<Option<Failure>> {
    seq(|tried|, i requires 0 <= i < |tried| =>
      HandshakeFailure(backend(i, tried[i]), clock(2 * i + 1) >= deadline))
  }

  ghost predicate StreamExplained(
    reply: Reply, tried: seq<string>, select: Selector, backend: Backend, clock: Clock, deadline: int, limit: nat)
  {
    && |tried| <= limit
    && Attempts(tried, select, Handshakes(tried, backend, clock, deadline))
    && (forall i | 0 <= i < |tried| :: clock(2 * i) < deadline)
    && Answers(reply, tried, Handshakes(tried, backend, clock, deadline), select, limit, clock(2 * |tried|) >= deadline)
    && (reply.Relayed? ==>
          var last := backend(|tried| - 1, tried[|tried| - 1]);
          last == Answered(reply.status, true) && !Success(reply.status))
    && (reply.Streaming? ==>
          var last := backend(|tried| - 1, tried[|tried| - 1]);
          last.Answered? && Success(last.status))
  }

  /** A request that made more than n attempts has no reply after n of them. */
  lemma StreamGoesOn(
    r: Reply, r': Reply, tried': seq<string>, n: nat,
    select: Selector, backend: Backend, clock: Clock, deadline: int, limit: nat)
    requires StreamExplained(r', tried', select, backend, clock, deadline, limit) && n < |tried'|
    ensures !StreamExplained(r, tried'[..n], select, backend, clock, deadline, limit)
  {
    var shorter, longer := Handshakes(tried'[..n], backend, clock, deadline), Handshakes(tried', backend, clock, deadline);
    assert n == 0 || shorter[n - 1] == longer[n - 1];
    assert select(n, Nodes(tried'[..n])) == Some(tried'[n]);
    assert clock(2 * n) < deadline;
    assert n == 0 ==> Nodes(tried'[..n]) == {};
  }

  /** The attempts made and the reply given are determined by the selector, the
      backends, the clock and the limit: no other pair meets the contract of the
      streaming loop. */
  lemma StreamReplyUnique(
    r: Reply, tried: seq<string>, r': Reply, tried': seq<string>,
    select: Selector, backend: Backend, clock: Clock, deadline: int, limit: nat)
    requires StreamExplained(r, tried, select, backend, clock, deadline, limit)
    requires StreamExplained(r', tried', select, backend, clock, deadline, limit)
    ensures tried == tried' && r == r'
  {
    if |tried| < |tried'| {
      SameStart(tried, tried', select);
      StreamGoesOn(r, r', tried', |tried|, select, backend, clock, deadline, limit);
    } else if |tried'| < |tried| {
      SameStart(tried', tried, select);
      StreamGoesOn(r', r, tried, |tried'|, select, backend, clock, deadline, limit);
    } else {
      SameStart(tried, tried', select);
      assert tried == tried';
    }
  }

  lemma PlainGoesOn(
    r: Reply, r': Reply, tried': seq<string>, n: nat, select: Selector, backend: Backend, limit: nat)
    requires PlainExplained(r', tried', select, backend, limit) && n < |tried'|
    ensures !PlainExplained(r, tried'[..n], select, backend, limit)
  {
    assert n == 0 || PlainFailures(tried'[..n], backend)[n - 1] == PlainFailures(tried', backend)[n - 1];
    assert select(n, Nodes(tried'[..n])) == Some(tried'[n]);
    assert n == 0 ==> Nodes(tried'[..n]) == {};
  }

  /** The same for the non-streaming loop. */
  lemma PlainReplyUnique(
    r: Reply, tried: seq<string>, r': Reply, tried': seq<string>, select: Selector, backend: Backend, limit: nat)
    requires PlainExplained(r, tried, select, backend, limit)
    requires PlainExplained(r', tried', select, backend, limit)
    ensures tried == tried' && r == r'
  {
    if |tried| < |tried'| {
      SameStart(tried, tried', select);
      PlainGoesOn(r, r', tried', |tried|, select, backend, limit);
    } else if |tried'| < |tried| {
      SameStart(tried', tried, select);
      PlainGoesOn(r', r, tried, |tried'|, select, backend, limit);
    } else {
      SameStart(tried, tried', select);
      assert tried == tried';
    }
  }

  /** One selector answers one request in one way. */
  lemma {:induction false} SameStart(tried: seq<string>, tried': seq<string>, select: Selector)
    requires |tried| <= |tried'|
    requires forall i | 0 <= i < |tried| :: select(i, Nodes(tried[..i])) == Some(tried[i])
    requires forall i | 0 <= i < |tried'| :: select(i, Nodes(tried'[..i])) == Some(tried'[i])
    ensures tried == tried'[..|tried|]
  {
    if tried != [] {
      var n := |tried| - 1;
      forall i | 0 <= i < n ensures select(i, Nodes(tried[..n][..i])) == Some(tried[..n][i]) {
        assert tried[..n][..i] == tried[..i];
      }
      SameStart(tried[..n], tried', select);
      assert tried'[..n] == tried[..n];
      assert select(n, Nodes(tried[..n])) == Some(tried[n]) && select(n, Nodes(tried'[..n])) == Some(tried'[n]);
      assert tried == tried[..n] + [tried[n]];
    }
  }

  // ------------------------------------------------ the answer, by what the backends did

  /** The node is at fault: it timed out, its connection broke, or it answered 5xx. */
  predicate NodeFails(outcome: Outcome) {
    outcome.Stalled? || outcome.Broke? || (outcome.Answered? && outcome.status >= 500)
  }

  /** The attempts and the reply, told by the backend outcomes alone: another node is
      selected after an attempt exactly when that node failed and attempts remain; the
      reply is the first outcome of another kind, or that the nodes are exhausted. */
  ghost predicate PlainAnswered(reply: Reply, tried: seq<string>, select: Selector, backend: Backend, limit: nat) {
    var n := |tried|;
    && n <= limit
    && (forall i | 0 <= i < n :: select(i, Nodes(tried[..i])) == Some(tried[i]))
    && (forall i | 0 <= i < n - 1 :: NodeFails(backend(i, tried[i])))
    && (n == 0 ==> reply == if limit == 0 then RaisedRuntimeError else NoNode)
    && (n == 0 < limit ==> select(0, {}).None?)
    && (n > 0 ==>
          var last := backend(n - 1, tried[n - 1]);
          && (NodeFails(last) ==> n == limit || select(n, Nodes(tried)).None?)
          && (reply.Exhausted? <==> NodeFails(last)) && (reply.Exhausted? ==> reply.attempts == n)
          && (reply.Failed? <==> last.Raised? || (last.Answered? && last.status < 500 && !last.renders))
          && (reply.Relayed? <==> last.Answered? && last.status < 500 && last.renders)
          && (reply.Relayed? ==> reply.status == last.status)
          && !reply.Streaming? && !reply.NoNode? && !reply.RaisedRuntimeError?)
  }

  lemma PlainByOutcome(reply: Reply, tried: seq<string>, select: Selector, backend: Backend, limit: nat)
    requires PlainExplained(reply, tried, select, backend, limit)
    ensures PlainAnswered(reply, tried, select, backend, limit)
  {
    var failures := PlainFailures(tried, backend);
    forall i | 0 <= i < |tried| - 1 ensures NodeFails(backend(i, tried[i])) {
      assert failures[i].Some? && Retryable(failures[i].value);
    }
    assert tried == [] ==> Nodes(tried) == {};
  }

  /** The contract of the non-streaming loop: attempts, reply and reported failure. */
  ghost predicate PlainReply(reply: Reply, tried: seq<string>, select: Selector, backend: Backend, limit: nat) {
    PlainExplained(reply, tried, select, backend, limit) && PlainAnswered(reply, tried, select, backend, limit)
  }

  lemma PlainBoth(select: Selector, backend: Backend, limit: nat)
    ensures forall r, tried :: PlainExplained(r, tried, select, backend, limit) ==> PlainReply(r, tried, select, backend, limit)
  {
    forall r, tried | PlainExplained(r, tried, select, backend, limit) ensures PlainReply(r, tried, select, backend, limit) {
      PlainByOutcome(r, tried, select, backend, limit);
    }
  }

  /** If the nodes the selector gives within the limit all fail up to one that answers
      below 500 with renderable content, that answer is relayed. */
  lemma FirstAnswerIsRelayed(
    path: seq<string>, status: nat, reply: Reply, tried: seq<string>, select: Selector, backend: Backend, limit: nat)
    requires 0 < |path| <= limit && (forall i | 0 <= i < |path| :: select(i, Nodes(path[..i])) == Some(path[i]))
    requires forall i | 0 <= i < |path| - 1 :: NodeFails(backend(i, path[i]))
    requires backend(|path| - 1, path[|path| - 1]) == Answered(status, true) && status < 500
    requires PlainAnswered(reply, tried, select, backend, limit)
    ensures tried == path && reply == Relayed(status)
  {
    SamePath(path, tried, select);
    if |tried| < |path| {
      PlainGoesOnAlong(path, reply, |tried|, select, backend, limit);
    } else if |tried| == |path| {
      assert tried == path;
    }
  }

  lemma PlainGoesOnAlong(path: seq<string>, reply: Reply, n: nat, select: Selector, backend: Backend, limit: nat)
    requires n < |path| <= limit && (forall i | 0 <= i < |path| :: select(i, Nodes(path[..i])) == Some(path[i]))
    requires forall i | 0 <= i < |path| - 1 :: NodeFails(backend(i, path[i]))
    ensures !PlainAnswered(reply, path[..n], select, backend, limit)
  {
    assert n == 0 ==> Nodes(path[..n]) == {};
    assert select(n, Nodes(path[..n])) == Some(path[n]);
  }

  /** Two lists of nodes from one selector agree as far as both go. */
  lemma SamePath(a: seq<string>, b: seq<string>, select: Selector)
    requires forall i | 0 <= i < |a| :: select(i, Nodes(a[..i])) == Some(a[i])
    requires forall i | 0 <= i < |b| :: select(i, Nodes(b[..i])) == Some(b[i])
    ensures |a| <= |b| ==> a == b[..|a|]
    ensures |b| <= |a| ==> b == a[..|b|]
  {
    if |a| <= |b| {
      SameStart(a, b, select);
    } else {
      SameStart(b, a, select);
    }
  }

  /** The node is at fault within the time there is for a handshake. */
  ghost predicate HandshakeFails(i: nat, node: string, backend: Backend, clock: Clock, deadline: int) {
    clock(2 * i + 1) >= deadline || NodeFails(backend(i, node))
  }

  /** The same for streaming requests: a 2xx answer streams, other answers below 500 are
      relayed, and an attempt also fails when its time is up. */
  ghost predicate StreamAnswered(
    reply: Reply, tried: seq<string>, select: Selector, backend: Backend, clock: Clock, deadline: int, limit: nat)
  {
    var n := |tried|;
    && n <= limit
    && (forall i | 0 <= i < n :: select(i, Nodes(tried[..i])) == Some(tried[i]) && clock(2 * i) < deadline)
    && (forall i | 0 <= i < n - 1 :: HandshakeFails(i, tried[i], backend, clock, deadline))
    && (n == 0 ==> reply == if limit == 0 || clock(0) >= deadline then RaisedRuntimeError else NoNode)
    && (n == 0 < limit && clock(0) < deadline ==> select(0, {}).None?)
    && (n > 0 ==>
          var last, failed := backend(n - 1, tried[n - 1]), HandshakeFails(n - 1, tried[n - 1], backend, clock, deadline);
          && (failed ==> n == limit || clock(2 * n) >= deadline || select(n, Nodes(tried)).None?)
          && (reply.Exhausted? <==> failed) && (reply.Exhausted? ==> reply.attempts == n)
          && (reply.Streaming? <==> !failed && last.Answered? && 200 <= last.status < 300)
          && (reply.Streaming? ==> reply.node == tried[n - 1])
          && (reply.Relayed? <==> !failed && last.Answered? && !(200 <= last.status < 300) && last.renders)
          && (reply.Relayed? ==> reply.status == last.status)
          && (reply.Failed? <==> !failed && (last.Raised? || (last.Answered? && !(200 <= last.status < 300) && !last.renders)))
          && !reply.NoNode? && !reply.RaisedRuntimeError?)
  }

  lemma StreamByOutcome(
    reply: Reply, tried: seq<string>, select: Selector, backend: Backend, clock: Clock, deadline: int, limit: nat)
    requires StreamExplained(reply, tried, select, backend, clock, deadline, limit)
    ensures StreamAnswered(reply, tried, select, backend, clock, deadline, limit)
  {
    var failures := Handshakes(tried, backend, clock, deadline);
    forall i | 0 <= i < |tried| - 1 ensures HandshakeFails(i, tried[i], backend, clock, deadline) {
      assert failures[i].Some? && Retryable(failures[i].value);
    }
    assert tried == [] ==> Nodes(tried) == {};
  }

  /** The contract of the streaming loop. */
  ghost predicate StreamReply(
    reply: Reply, tried: seq<string>, select: Selector, backend: Backend, clock: Clock, deadline: int, limit: nat)
  {
    && StreamExplained(reply, tried, select, backend, clock, deadline, limit)
    && StreamAnswered(reply, tried, select, backend, clock, deadline, limit)
  }

  lemma StreamBoth(select: Selector, backend: Backend, clock: Clock, deadline: int, limit: nat)
    ensures forall r, tried :: StreamExplained(r, tried, select, backend, clock, deadline, limit) ==>
              StreamReply(r, tried, select, backend, clock, deadline, limit)
  {
    forall r, tried | StreamExplained(r, tried, select, backend, clock, deadline, limit)
      ensures StreamReply(r, tried, select, backend, clock, deadline, limit)
    {
      StreamByOutcome(r, tried, select, backend, clock, deadline, limit);
    }
  }

  /** If the nodes the selector gives within the limit and the time all fail up to one
      that answers 2xx in time, that one is streamed. */
  lemma FirstStreamIsTaken(
    path: seq<string>, reply: Reply, tried: seq<string>,
    select: Selector, backend: Backend, clock: Clock, deadline: int, limit: nat)
    requires 0 < |path| <= limit && (forall i | 0 <= i < |path| :: select(i, Nodes(path[..i])) == Some(path[i]))
    requires forall i | 0 <= i < |path| :: clock(2 * i) < deadline
    requires forall i | 0 <= i < |path| - 1 :: HandshakeFails(i, path[i], backend, clock, deadline)
    requires var last := backend(|path| - 1, path[|path| - 1]);
             clock(2 * |path| - 1) < deadline && last.Answered? && 200 <= last.status < 300
    requires StreamAnswered(reply, tried, select, backend, clock, deadline, limit)
    ensures tried == path && reply == Streaming(path[|path| - 1])
  {
    SamePath(path, tried, select);
    if |tried| < |path| {
      StreamGoesOnAlong(path, reply, |tried|, select, backend, clock, deadline, limit);
    } else if |tried| == |path| {
      assert tried == path;
    }
  }

  lemma StreamGoesOnAlong(
    path: seq<string>, reply: Reply, n: nat, select: Selector, backend: Backend, clock: Clock, deadline: int, limit: nat)
    requires n < |path| <= limit && (forall i | 0 <= i < |path| :: select(i, Nodes(path[..i])) == Some(path[i]))
    requires forall i | 0 <= i < |path| :: clock(2 * i) < deadline
    requires forall i | 0 <= i < |path| - 1 :: HandshakeFails(i, path[i], backend, clock, deadline)
    ensures !StreamAnswered(reply, path[..n], select, backend, clock, deadline, limit)
  {
    assert n == 0 ==> Nodes(path[..n]) == {};
    assert select(n, Nodes(path[..n])) == Some(path[n]) && clock(2 * n) < deadline;
  }

  // ---------------------------------------------------------------- reservations and sessions

  class NodeReservation {
    const node: string
    var released: bool

    constructor (node: string)
      ensures this.node == node && !released
    {
      this.node := node;
      released := false;
    }

    /** Gives the connection back the first time it is called. */
    method Release() returns (freed: seq<Event>)
      modifies this`released
      ensures released
      ensures freed == if old(released) then [] else [Freed(node)]
    {
      if released {
        return [];
      }
      released := true;
      freed := [Freed(node)];
    }
  }

  class StreamingSession {
    const reservation: NodeReservation
    /** Whether the one close task exists. */
    var closing: bool

    constructor (reservation: NodeReservation)
      ensures this.reservation == reservation && !closing
    {
      this.reservation := reservation;
      closing := false;
    }

    method Close() returns (freed: seq<Event>)
      modifies this`closing, reservation`released
      ensures closing && (old(closing) ==> reservation.released == old(reservation.released))
      ensures !old(closing) ==> reservation.released
      ensures freed == if old(closing || reservation.released) then [] else [Freed(reservation.node)]
    {
      freed := [];
      if !closing {
        closing := true;
        freed := reservation.Release();
      }
    }
  }

  /** The generator and the background task close a handed-on session, in either
      order and any number of times: it gives its connection back exactly once. */
  method CloseRepeatedly(session: StreamingSession, times: nat) returns (freed: seq<Event>)
    requires !session.closing && !session.reservation.released
    modifies session`closing, session.reservation`released
    ensures freed == if times == 0 then [] else [Freed(session.reservation.node)]
  {
    freed := [];
    for i := 0 to times
      invariant session.closing == (i > 0) && session.reservation.released == (i > 0)
      invariant freed == if i == 0 then [] else [Freed(session.reservation.node)]
    {
      var more := session.Close();
      freed := freed + more;
    }
  }

  /** A streamed request whose session is closed at least once has nothing left
      reserved, and each of its nodes was given back exactly once. */
  lemma StreamSettles(log: seq<Event>, node: string)
    requires Disciplined(log) && Held(log) == 1 && Tried(log) != [] && Tried(log)[|Tried(log)| - 1] == node
    ensures Disciplined(log + [Freed(node)]) && Held(log + [Freed(node)]) == 0
    ensures forall other :: Frees(log + [Freed(node)], other) == if other in Tried(log) then 1 else 0
  {
    Extend(log, Freed(node));
    forall other ensures Frees(log + [Freed(node)], other) == if other in Tried(log) then 1 else 0 {
      DisciplinePays(log + [Freed(node)], other);
    }
  }

  // ---------------------------------------------------------------- the loops

  lemma NodesGrow(tried: seq<string>, node: string)
    ensures Nodes(tried + [node]) == Nodes(tried) + {node}
  {
  }

  /** One more attempt after attempts that were all retried. */
  lemma AttemptsGrow(tried: seq<string>, node: string, select: Selector, failures: seq<Option<Failure>>, next: Option<Failure>)
    requires Attempts(tried, select, failures)
    requires tried != [] ==> failures[|tried| - 1].Some? && Retryable(failures[|tried| - 1].value)
    requires select(|tried|, Nodes(tried)) == Some(node)
    ensures Attempts(tried + [node], select, failures + [next])
  {
    var longer := tried + [node];
    forall i | 0 <= i < |longer| ensures select(i, Nodes(longer[..i])) == Some(longer[i]) {
      assert longer[..i] == tried[..i];
      assert i == |tried| ==> tried[..i] == tried;
    }
  }

  /** The metrics hear of every attempt, the first as the request and the others as
      retries, and the breaker of exactly the attempts that raised. */
  ghost predicate Heard(log: seq<Event>, tried: seq<string>, failures: seq<Option<Failure>>) {
    && |failures| == |tried|
    && forall i | 0 <= i < |tried| ::
         && (FailedOn(tried[i]) in log <==> failures[i].Some?)
         && (if i == 0 then Requested(tried[i]) else Retried(tried[i])) in log
  }

  lemma {:induction false} FailedWereTried(log: seq<Event>, node: string)
    requires Disciplined(log) && FailedOn(node) in log
    ensures node in Tried(log)
  {
    var n := |log| - 1;
    var past := log[..n];
    assert log == past + [log[n]];
    DisciplinedPast(log);
    hide Disciplined, Fits, Held;
    if FailedOn(node) in past {
      FailedWereTried(past, node);
    } else {
      FailedIsLast(past, node);
    }
  }

  lemma DisciplinedPast(log: seq<Event>)
    requires Disciplined(log) && log != []
    ensures Disciplined(log[..|log| - 1]) && Fits(log[..|log| - 1], log[|log| - 1])
  {
    hide Fits;
    var past := log[..|log| - 1];
    forall k | 0 <= k < |past| ensures Fits(past[..k], past[k]) {
      assert past[..k] == log[..k];
    }
  }

  lemma FailedIsLast(past: seq<Event>, node: string)
    requires Fits(past, FailedOn(node))
    ensures node in Tried(past)
  {
    hide Tried, Held;
  }

  /** Events about one node. */
  ghost predicate About(events: seq<Event>, node: string) {
    forall e | e in events :: !e.NoneSelected? && e.node == node
  }

  /** One attempt more, on a node that was not tried before. */
  lemma HeardGrows(
    log: seq<Event>, events: seq<Event>, node: string, excluded: set<string>, failures: seq<Option<Failure>>, failure: Option<Failure>)
    requires Disciplined(log) && Heard(log, Tried(log), failures) && node !in Tried(log)
    requires About(events, node) && (FailedOn(node) in events <==> failure.Some?)
    ensures var opening := Opening(excluded, node, Tried(log) == []);
            Heard(log + (opening + events), Tried(log) + [node], failures + [failure])
  {
    hide Disciplined;
    if FailedOn(node) in log {
      FailedWereTried(log, node);
    }
    var opening := Opening(excluded, node, Tried(log) == []);
    var longer, tried := log + (opening + events), Tried(log) + [node];
    assert opening[1] in longer;
    forall i | 0 <= i < |tried|
      ensures FailedOn(tried[i]) in longer <==> (failures + [failure])[i].Some?
      ensures (if i == 0 then Requested(tried[i]) else Retried(tried[i])) in longer
    {
      assert FailedOn(tried[i]) !in opening;
    }
  }

  lemma HeardOn(log: seq<Event>, tried: seq<string>, failures: seq<Option<Failure>>, excluded: set<string>)
    requires Heard(log, tried, failures)
    ensures Heard(log + [NoneSelected(excluded)], tried, failures)
  {
  }

  /** What holds between two turns of either loop. */
  ghost predicate BetweenTurns(
    log: seq<Event>, excluded: set<string>, lastError: Option<Failure>, attempts: nat,
    select: Selector, failures: seq<Option<Failure>>)
  {
    && Disciplined(log) && Held(log) == 0
    && Attempts(Tried(log), select, failures) && Heard(log, Tried(log), failures)
    && attempts == |Tried(log)| && excluded == Nodes(Tried(log))
    && (attempts == 0 ==> lastError.None?)
    && (attempts > 0 ==> lastError.Some? && Retryable(lastError.value) && failures[attempts - 1] == lastError)
  }

  /** The two events that open an attempt. */
  function Opening(excluded: set<string>, node: string, first: bool): seq<Event> {
    [Selected(excluded, node), if first then Requested(node) else Retried(node)]
  }

  lemma OpeningFits(log: seq<Event>, node: string)
    requires Disciplined(log) && Held(log) == 0 && node !in Tried(log)
    ensures var longer := log + Opening(Nodes(Tried(log)), node, Tried(log) == []);
            Disciplined(longer) && Held(longer) == 1 && Tried(longer) == Tried(log) + [node]
  {
    hide Disciplined, Held, Tried, Nodes;
    var chosen := Selected(Nodes(Tried(log)), node);
    Extend(log, chosen);
    var second := if Tried(log) == [] then Requested(node) else Retried(node);
    Extend(log + [chosen], second);
    assert log + [chosen] + [second] == log + Opening(Nodes(Tried(log)), node, Tried(log) == []);
  }

  /** `_proxy_non_streaming`. */
  method ProxyNonStreaming(select: Selector, backend: Backend, limit: nat) returns (reply: Reply, log: seq<Event>)
    requires NeverExcluded(select)
    ensures Disciplined(log) && Held(log) == 0
    ensures PlainReply(reply, Tried(log), select, backend, limit)
    ensures Heard(log, Tried(log), PlainFailures(Tried(log), backend))
  {
    hide Heard, Disciplined, Fits, Attempts, NeverExcluded, Held, Tried, Nodes, PlainFailures, PlainFailure, Retryable, PlainReply;
    log := [];
    var excluded: set<string>, lastError: Option<Failure>, attempts, firstAttempt := {}, None, 0, true;
    ghost var failures: seq<Option<Failure>> := [];
    StartsClean(select);
    assert failures == PlainFailures([], backend) by { PlainFailuresGrow([], "", backend); }
    for turn := 0 to limit
      invariant turn == attempts && firstAttempt == (attempts == 0)
      invariant failures == PlainFailures(Tried(log), backend)
      invariant BetweenTurns(log, excluded, lastError, attempts, select, failures)
    {
      ghost var before := Tried(log);
      var choice := select(turn, excluded);
      if choice.None? {
        NothingChosen(log);
        HeardOn(log, before, failures, excluded);
        log := log + [NoneSelected(excluded)];
        PlainStops(before, lastError, select, backend, limit);
        return if lastError.Some? then Exhausted(lastError.value, attempts) else NoNode, log;
      }
      var reservation := new NodeReservation(choice.value);
      var node := reservation.node;
      Chosen(select, before);
      OpeningFits(log, node);
      ghost var past, opening := log, Opening(excluded, node, firstAttempt);
      log := log + Opening(excluded, node, firstAttempt);
      attempts, firstAttempt := attempts + 1, false;
      var outcome := backend(turn, node);
      ghost var tried := Tried(log);
      AttemptsGrow(before, node, select, failures, PlainFailure(outcome));
      PlainFailuresGrow(before, node, backend);
      var raised, events := SettlePlain(log, reservation, outcome);
      HeardGrows(past, events, node, excluded, failures, PlainFailure(outcome));
      assert past + opening + events == past + (opening + events);
      failures := failures + [PlainFailure(outcome)];
      log := log + events;
      if raised.None? {
        PlainReplies(tried, select, backend, limit);
        return Relayed(outcome.status), log;
      }
      lastError := raised;
      if !Retryable(raised.value) {
        PlainReplies(tried, select, backend, limit);
        return Failed(raised.value), log;
      }
      NodesGrow(before, node);
      excluded := excluded + {node};
    }
    PlainStops(Tried(log), lastError, select, backend, limit);
    reply := if lastError.Some? then Exhausted(lastError.value, attempts) else RaisedRuntimeError;
  }

  lemma PlainFailuresGrow(tried: seq<string>, node: string, backend: Backend)
    ensures PlainFailures(tried + [node], backend) == PlainFailures(tried, backend) + [PlainFailure(backend(|tried|, node))]
    ensures |PlainFailures(tried, backend)| == |tried|
  {
  }

  /** The loop ends with no attempt to wait for. */
  lemma PlainStops(tried: seq<string>, lastError: Option<Failure>, select: Selector, backend: Backend, limit: nat)
    requires |tried| <= limit && Attempts(tried, select, PlainFailures(tried, backend))
    requires tried == [] ==> lastError.None?
    requires tried != [] ==> lastError.Some? && Retryable(lastError.value)
    requires tried != [] ==> PlainFailures(tried, backend)[|tried| - 1] == lastError
    ensures |tried| == limit ==>
      PlainReply(if lastError.Some? then Exhausted(lastError.value, |tried|) else RaisedRuntimeError,
                     tried, select, backend, limit)
    ensures |tried| < limit && select(|tried|, Nodes(tried)).None? ==>
      PlainReply(if lastError.Some? then Exhausted(lastError.value, |tried|) else NoNode,
                     tried, select, backend, limit)
  {
    NoNodes();
    PlainBoth(select, backend, limit);
  }

  /** The loop ends with what the last attempt brought. */
  lemma PlainReplies(tried: seq<string>, select: Selector, backend: Backend, limit: nat)
    requires 0 < |tried| <= limit && Attempts(tried, select, PlainFailures(tried, backend))
    ensures var n := |tried| - 1;
            var outcome := backend(n, tried[n]);
            var failure := PlainFailure(outcome);
            if failure.Some? then
              !Retryable(failure.value) ==> PlainReply(Failed(failure.value), tried, select, backend, limit)
            else
              outcome.Answered? && PlainReply(Relayed(outcome.status), tried, select, backend, limit)
  {
    PlainBoth(select, backend, limit);
  }

  /** The `try` statement of a non-streaming attempt: the breaker hears of the
      outcome, and the reservation is given back whatever happened. */
  method SettlePlain(ghost log: seq<Event>, reservation: NodeReservation, outcome: Outcome)
    returns (raised: Option<Failure>, events: seq<Event>)
    requires Disciplined(log) && Held(log) == 1 && Tried(log) != []
    requires Tried(log)[|Tried(log)| - 1] == reservation.node && !reservation.released
    modifies reservation`released
    ensures raised == PlainFailure(outcome)
    ensures Disciplined(log + events) && Held(log + events) == 0 && Tried(log + events) == Tried(log)
    ensures Succeeded(reservation.node) in events <==> outcome.Answered? && Success(outcome.status)
    ensures FailedOn(reservation.node) in events <==> raised.Some?
    ensures About(events, reservation.node)
  {
    hide Disciplined, Fits, Held, Tried;
    var node := reservation.node;
    ghost var all := log;
    raised, events := None, [];
    match outcome {
      case Broke(detail) => raised := Some(Transport(detail));
      case Raised(detail) => raised := Some(Other(detail));
      case Stalled => raised := Some(Transport("read timeout"));
      case Answered(status, renders) =>
        if status >= 500 {
          raised := Some(ServerError(status));
        } else {
          if Success(status) {
            LastEvent(all, Succeeded(node));
            events, all := events + [Succeeded(node)], all + [Succeeded(node)];
          }
          if !renders {
            raised := Some(UnrenderableContent());
          }
        }
    }
    assert log + events == all;
    if raised.Some? {
      LastEvent(all, FailedOn(node));
      events, all := events + [FailedOn(node)], all + [FailedOn(node)];
    }
    LastEvent(all, Freed(node));
    var freed := reservation.Release();
    events, all := events + freed, all + [Freed(node)];
    assert log + events == all;
  }

  /** `_stream_completion`. The reservation of a successful handshake is handed on
      in the session, unreleased; every other one was given back on the way. */
  method StreamCompletion(select: Selector, backend: Backend, clock: Clock, deadline: int, limit: nat)
    returns (reply: Reply, log: seq<Event>, session: StreamingSession?)
    requires NeverExcluded(select)
    ensures Disciplined(log) && Held(log) == if reply.Streaming? then 1 else 0
    ensures StreamReply(reply, Tried(log), select, backend, clock, deadline, limit)
    ensures Heard(log, Tried(log), Handshakes(Tried(log), backend, clock, deadline))
    ensures reply.Streaming? <==> session != null
    ensures session != null ==>
      && fresh(session) && fresh(session.reservation)
      && !session.closing && !session.reservation.released && session.reservation.node == reply.node
  {
    hide StreamBetween, NeverExcluded, StreamReply, Disciplined, Held, Tried, Heard, Handshakes;
    log, session := [], null;
    var excluded: set<string>, lastError: Option<Failure>, attempts := {}, None, 0;
    StreamBegins(select, backend, clock, deadline);
    for turn := 0 to limit
      invariant turn == attempts && session == null
      invariant StreamBetween(log, excluded, lastError, attempts, select, backend, clock, deadline)
    {
      if clock(2 * turn) >= deadline {
        break;
      }
      var choice := select(turn, excluded);
      if choice.None? {
        StreamUnserved(log, excluded, lastError, attempts, select, backend, clock, deadline, limit);
        log := log + [NoneSelected(excluded)];
        return if lastError.Some? then Exhausted(lastError.value, attempts) else NoNode, log, null;
      }
      var events;
      reply, events, session, lastError :=
        AttemptHandshake(log, choice.value, excluded, lastError, attempts, select, backend, clock, deadline, limit);
      log, attempts := log + events, attempts + 1;
      if lastError.None? || !Retryable(lastError.value) {
        return;
      }
      excluded := excluded + {choice.value};
    }
    StreamEnds(log, excluded, lastError, attempts, select, backend, clock, deadline, limit);
    reply := if lastError.Some? then Exhausted(lastError.value, attempts) else RaisedRuntimeError;
  }

  /** What holds between two turns of the streaming loop. */
  ghost predicate StreamBetween(
    log: seq<Event>, excluded: set<string>, lastError: Option<Failure>, attempts: nat,
    select: Selector, backend: Backend, clock: Clock, deadline: int)
  {
    && BetweenTurns(log, excluded, lastError, attempts, select, Handshakes(Tried(log), backend, clock, deadline))
    && forall i | 0 <= i < attempts :: clock(2 * i) < deadline
  }

  /** One turn of the streaming loop, for the node that was selected: an error that is
      retried leaves everything ready for the next turn, anything else is the reply. */
  method AttemptHandshake(
    ghost log: seq<Event>, node: string, excluded: set<string>, ghost lastError: Option<Failure>, attempts: nat,
    ghost select: Selector, backend: Backend, clock: Clock, deadline: int, ghost limit: nat)
    returns (reply: Reply, events: seq<Event>, session: StreamingSession?, raised: Option<Failure>)
    requires NeverExcluded(select) && attempts < limit && clock(2 * attempts) < deadline
    requires StreamBetween(log, excluded, lastError, attempts, select, backend, clock, deadline)
    requires select(attempts, excluded) == Some(node)
    ensures raised.Some? && Retryable(raised.value) ==>
      && session == null
      && StreamBetween(log + events, excluded + {node}, raised, attempts + 1, select, backend, clock, deadline)
    ensures raised.None? || !Retryable(raised.value) ==>
      && Disciplined(log + events) && Held(log + events) == (if reply.Streaming? then 1 else 0)
      && StreamReply(reply, Tried(log + events), select, backend, clock, deadline, limit)
      && Heard(log + events, Tried(log + events), Handshakes(Tried(log + events), backend, clock, deadline))
      && (reply.Streaming? <==> session != null)
    ensures session != null ==>
      && reply.Streaming? && fresh(session) && fresh(session.reservation)
      && !session.closing && !session.reservation.released && session.reservation.node == reply.node
  {
    hide StreamBetween, NeverExcluded, StreamReply, Disciplined, Held, Tried, Attempts, Handshakes, HandshakeFailure, Retryable, Success, Heard, About, Opening;
    var reservation := new NodeReservation(node);
    StreamOpens(log, node, excluded, lastError, attempts, select, backend, clock, deadline);
    events := Opening(excluded, node, attempts == 0);
    ghost var before, tried := Tried(log), Tried(log + events);
    var outcome, late := backend(attempts, node), clock(2 * attempts + 1) >= deadline;
    var settled;
    raised, settled := SettleHandshake(log + events, reservation, outcome, late);
    assert log + events + settled == log + (events + settled);
    StreamHeard(log, settled, node, excluded, lastError, attempts, select, backend, clock, deadline);
    events, session := events + settled, null;
    StreamReplies(tried, select, backend, clock, deadline, limit);
    if raised.None? {
      if !Success(outcome.status) {
        return Relayed(outcome.status), events, null, None;
      }
      session := new StreamingSession(reservation);
      return Streaming(node), events, session, None;
    }
    reply := Failed(raised.value);
    if Retryable(raised.value) {
      StreamRetries(log, log + events, node, excluded, lastError, raised, attempts, select, backend, clock, deadline);
    }
  }

  lemma StreamBegins(select: Selector, backend: Backend, clock: Clock, deadline: int)
    ensures StreamBetween([], {}, None, 0, select, backend, clock, deadline)
  {
  }

  lemma StreamOpens(
    log: seq<Event>, node: string, excluded: set<string>, lastError: Option<Failure>, attempts: nat,
    select: Selector, backend: Backend, clock: Clock, deadline: int)
    requires NeverExcluded(select) && clock(2 * attempts) < deadline
    requires StreamBetween(log, excluded, lastError, attempts, select, backend, clock, deadline)
    requires select(attempts, excluded) == Some(node)
    ensures var longer := log + Opening(excluded, node, attempts == 0);
            && Disciplined(longer) && Held(longer) == 1 && Tried(longer) == Tried(log) + [node] && |Tried(log)| == attempts
            && Attempts(Tried(longer), select, Handshakes(Tried(longer), backend, clock, deadline))
            && forall i | 0 <= i <= attempts :: clock(2 * i) < deadline
  {
    hide Disciplined, Held, Tried, Attempts, NeverExcluded, Handshakes, HandshakeFailure, Nodes;
    var before := Tried(log);
    Chosen(select, before);
    OpeningFits(log, node);
    HandshakesGrow(before, node, backend, clock, deadline);
    AttemptsGrow(before, node, select, Handshakes(before, backend, clock, deadline),
      HandshakeFailure(backend(attempts, node), clock(2 * attempts + 1) >= deadline));
  }

  lemma StreamHeard(
    log: seq<Event>, settled: seq<Event>, node: string, excluded: set<string>, lastError: Option<Failure>, attempts: nat,
    select: Selector, backend: Backend, clock: Clock, deadline: int)
    requires NeverExcluded(select) && select(attempts, excluded) == Some(node)
    requires StreamBetween(log, excluded, lastError, attempts, select, backend, clock, deadline)
    requires About(settled, node)
    requires FailedOn(node) in settled <==> HandshakeFailure(backend(attempts, node), clock(2 * attempts + 1) >= deadline).Some?
    ensures Heard(log + (Opening(excluded, node, attempts == 0) + settled), Tried(log) + [node],
                  Handshakes(Tried(log) + [node], backend, clock, deadline))
  {
    hide Disciplined, Held, Tried, Attempts, NeverExcluded, Handshakes, HandshakeFailure, Heard, About, Opening;
    var before := Tried(log);
    Chosen(select, before);
    HandshakesGrow(before, node, backend, clock, deadline);
    HeardGrows(log, settled, node, excluded, Handshakes(before, backend, clock, deadline),
      HandshakeFailure(backend(attempts, node), clock(2 * attempts + 1) >= deadline));
  }

  lemma StreamRetries(
    log: seq<Event>, longer: seq<Event>, node: string, excluded: set<string>, lastError: Option<Failure>,
    raised: Option<Failure>, attempts: nat, select: Selector, backend: Backend, clock: Clock, deadline: int)
    requires StreamBetween(log, excluded, lastError, attempts, select, backend, clock, deadline)
    requires Disciplined(longer) && Held(longer) == 0 && Tried(longer) == Tried(log) + [node]
    requires Attempts(Tried(longer), select, Handshakes(Tried(longer), backend, clock, deadline))
    requires Heard(longer, Tried(longer), Handshakes(Tried(longer), backend, clock, deadline))
    requires raised == HandshakeFailure(backend(attempts, node), clock(2 * attempts + 1) >= deadline)
    requires clock(2 * attempts) < deadline && raised.Some? && Retryable(raised.value)
    ensures StreamBetween(longer, excluded + {node}, raised, attempts + 1, select, backend, clock, deadline)
  {
    hide Disciplined, Held, Tried, Attempts, Handshakes, HandshakeFailure, Retryable, Nodes;
    HandshakesGrow(Tried(log), node, backend, clock, deadline);
    NodesGrow(Tried(log), node);
  }

  /** No node is left to select. */
  lemma StreamUnserved(
    log: seq<Event>, excluded: set<string>, lastError: Option<Failure>, attempts: nat,
    select: Selector, backend: Backend, clock: Clock, deadline: int, limit: nat)
    requires StreamBetween(log, excluded, lastError, attempts, select, backend, clock, deadline)
    requires attempts < limit && clock(2 * attempts) < deadline && select(attempts, excluded).None?
    ensures var longer := log + [NoneSelected(excluded)];
            && Disciplined(longer) && Held(longer) == 0
            && StreamReply(if lastError.Some? then Exhausted(lastError.value, attempts) else NoNode,
                               Tried(longer), select, backend, clock, deadline, limit)
            && Heard(longer, Tried(longer), Handshakes(Tried(longer), backend, clock, deadline))
  {
    HeardOn(log, Tried(log), Handshakes(Tried(log), backend, clock, deadline), excluded);
    hide Heard, Disciplined, Held, Tried, Attempts, Handshakes, Retryable, Nodes, StreamReply;
    NothingChosen(log);
    StreamStops(Tried(log), lastError, select, backend, clock, deadline, limit);
  }

  /** The attempts or the time have run out. */
  lemma StreamEnds(
    log: seq<Event>, excluded: set<string>, lastError: Option<Failure>, attempts: nat,
    select: Selector, backend: Backend, clock: Clock, deadline: int, limit: nat)
    requires StreamBetween(log, excluded, lastError, attempts, select, backend, clock, deadline)
    requires attempts <= limit && (attempts == limit || clock(2 * attempts) >= deadline)
    ensures Disciplined(log) && Held(log) == 0
    ensures StreamReply(if lastError.Some? then Exhausted(lastError.value, attempts) else RaisedRuntimeError,
                            Tried(log), select, backend, clock, deadline, limit)
    ensures Heard(log, Tried(log), Handshakes(Tried(log), backend, clock, deadline))
  {
    hide Heard, Disciplined, Held, Tried, Attempts, Handshakes, Retryable, Nodes, StreamReply;
    StreamStops(Tried(log), lastError, select, backend, clock, deadline, limit);
  }

  lemma HandshakesGrow(tried: seq<string>, node: string, backend: Backend, clock: Clock, deadline: int)
    ensures Handshakes(tried + [node], backend, clock, deadline) ==
            Handshakes(tried, backend, clock, deadline)
            + [HandshakeFailure(backend(|tried|, node), clock(2 * |tried| + 1) >= deadline)]
    ensures |Handshakes(tried, backend, clock, deadline)| == |tried|
  {
  }

  /** The loop ends with no attempt to wait for. */
  lemma StreamStops(
    tried: seq<string>, lastError: Option<Failure>,
    select: Selector, backend: Backend, clock: Clock, deadline: int, limit: nat)
    requires |tried| <= limit && (forall i | 0 <= i < |tried| :: clock(2 * i) < deadline)
    requires Attempts(tried, select, Handshakes(tried, backend, clock, deadline))
    requires tried == [] ==> lastError.None?
    requires tried != [] ==> lastError.Some? && Retryable(lastError.value)
    requires tried != [] ==> Handshakes(tried, backend, clock, deadline)[|tried| - 1] == lastError
    ensures |tried| == limit || clock(2 * |tried|) >= deadline ==>
      StreamReply(if lastError.Some? then Exhausted(lastError.value, |tried|) else RaisedRuntimeError,
                      tried, select, backend, clock, deadline, limit)
    ensures |tried| < limit && clock(2 * |tried|) < deadline && select(|tried|, Nodes(tried)).None? ==>
      StreamReply(if lastError.Some? then Exhausted(lastError.value, |tried|) else NoNode,
                      tried, select, backend, clock, deadline, limit)
  {
    NoNodes();
    StreamBoth(select, backend, clock, deadline, limit);
  }

  /** The loop ends with what the last attempt brought. */
  lemma StreamReplies(
    tried: seq<string>, select: Selector, backend: Backend, clock: Clock, deadline: int, limit: nat)
    requires 0 < |tried| <= limit && (forall i | 0 <= i < |tried| :: clock(2 * i) < deadline)
    requires Attempts(tried, select, Handshakes(tried, backend, clock, deadline))
    ensures var n := |tried| - 1;
            var outcome := backend(n, tried[n]);
            var failure := HandshakeFailure(outcome, clock(2 * n + 1) >= deadline);
            if failure.Some? then
              !Retryable(failure.value) ==>
                StreamReply(Failed(failure.value), tried, select, backend, clock, deadline, limit)
            else
              && outcome.Answered?
              && StreamReply(if Success(outcome.status) then Streaming(tried[n]) else Relayed(outcome.status),
                                 tried, select, backend, clock, deadline, limit)
  {
    StreamBoth(select, backend, clock, deadline, limit);
  }

  /** The `try` statement of a streaming attempt. A 4xx answer closes the attempt
      before it is rendered, so a failing render closes it a second time. */
  method SettleHandshake(ghost log: seq<Event>, reservation: NodeReservation, outcome: Outcome, late: bool)
    returns (raised: Option<Failure>, events: seq<Event>)
    requires Disciplined(log) && Held(log) == 1 && Tried(log) != []
    requires Tried(log)[|Tried(log)| - 1] == reservation.node && !reservation.released
    modifies reservation`released
    ensures raised == HandshakeFailure(outcome, late)
    ensures Disciplined(log + events) && Tried(log + events) == Tried(log)
    ensures Held(log + events) == if raised.None? && Success(outcome.status) then 1 else 0
    ensures reservation.released == (Held(log + events) == 0)
    ensures FailedOn(reservation.node) in events <==> raised.Some?
    ensures About(events, reservation.node)
  {
    hide Disciplined, Fits, Held, Tried;
    var node := reservation.node;
    ghost var closed := log + [Freed(node)];
    LastEvent(log, Freed(node));
    raised, events := None, [];
    if late || outcome.Stalled? {
      raised := Some(HandshakeTimeout);
    } else if outcome.Broke? {
      raised := Some(Transport(outcome.detail));
    } else if outcome.Raised? {
      raised := Some(Other(outcome.detail));
    } else if outcome.status >= 500 {
      raised := Some(ServerError(outcome.status));
    } else if !Success(outcome.status) {
      events := reservation.Release();
      if !outcome.renders {
        raised := Some(UnrenderableContent());
      }
    }
    if raised.Some? {
      var freed := reservation.Release();
      assert log + (events + freed) == closed;
      LastEvent(closed, FailedOn(node));
      events := events + freed + [FailedOn(node)];
      assert log + events == closed + [FailedOn(node)];
    } else {
      assert log + [] == log;
    }
  }

  lemma StartsClean(select: Selector)
    ensures BetweenTurns([], {}, None, 0, select, [])
  {
  }

  lemma Chosen(select: Selector, tried: seq<string>)
    requires NeverExcluded(select) && select(|tried|, Nodes(tried)).Some?
    ensures select(|tried|, Nodes(tried)).value !in tried
  {
  }

  lemma NothingChosen(log: seq<Event>)
    requires Disciplined(log) && Held(log) == 0
    ensures var longer := log + [NoneSelected(Nodes(Tried(log)))];
            Disciplined(longer) && Held(longer) == 0 && Tried(longer) == Tried(log)
  {
    Extend(log, NoneSelected(Nodes(Tried(log))));
  }

  lemma NoNodes()
    ensures Nodes([]) == {}
  {
  }

  /** An event about the node tried last, while its reservation is held. */
  lemma LastEvent(log: seq<Event>, event: Event)
    requires Disciplined(log) && Tried(log) != [] && (event.Succeeded? || event.FailedOn? || event.Freed?)
    requires event.node == Tried(log)[|Tried(log)| - 1] && (event.FailedOn? || Held(log) == 1)
    ensures Disciplined(log + [event]) && Tried(log + [event]) == Tried(log)
    ensures Held(log + [event]) == if event.Freed? then 0 else Held(log)
  {
    Extend(log, event);
  }
}
