/** The channel between two domains: messages sent, flushed in batches and acknowledged. */
module Channel {
  import opened Prelude

  // ----- Messages -----

  datatype Priority = Critical | High | Normal | Low

  function Rank(p: Priority): nat {
    match p
    case Critical => 0
    case High => 1
    case Normal => 2
    case Low => 3
  }

  /** What never changes about a message. */
  datatype Letter = Letter(id: string, priority: Priority, sequence: nat, requiresAck: bool)

  predicate Less(a: Letter, b: Letter) {
    if a.priority != b.priority then Rank(a.priority) < Rank(b.priority) else a.sequence < b.sequence
  }

  /** The letters that are critical, or those that are not, in order. */
  function Sieve(s: seq<Letter>, critical: bool): seq<Letter> {
    if s == [] then []
    else
      var last := s[|s| - 1];
      Sieve(s[..|s| - 1], critical) + if last.priority.Critical? == critical then [last] else []
  }

  lemma {:induction false} SieveConcat(s: seq<Letter>, t: seq<Letter>, critical: bool)
    ensures Sieve(s + t, critical) == Sieve(s, critical) + Sieve(t, critical)
  {
    if t == [] {
      assert s + t == s;
    } else {
      var n := |t| - 1;
      assert (s + t)[..|s + t| - 1] == s + t[..n];
      SieveConcat(s, t[..n], critical);
    }
  }

  lemma {:induction false} SieveKeepsAll(s: seq<Letter>, critical: bool)
    requires forall m <- s :: m.priority.Critical? == critical
    ensures Sieve(s, critical) == s && Sieve(s, !critical) == []
  {
    if s != [] {
      assert s == s[..|s| - 1] + [s[|s| - 1]];
      SieveKeepsAll(s[..|s| - 1], critical);
    }
  }

  ghost predicate Numbered(s: seq<Letter>) {
    forall i :: 0 <= i < |s| ==> s[i].sequence == i
  }

  ghost predicate Rising(s: seq<Letter>) {
    forall i, j :: 0 <= i < j < |s| ==> s[i].sequence < s[j].sequence
  }

  ghost predicate Uniform(s: seq<Letter>, critical: bool) {
    forall m <- s :: m.priority.Critical? == critical
  }

  lemma {:induction false} SieveIsUniform(s: seq<Letter>, critical: bool)
    ensures Uniform(Sieve(s, critical), critical)
    ensures forall m <- Sieve(s, critical) :: m in s
  {
    if s != [] {
      SieveIsUniform(s[..|s| - 1], critical);
    }
  }

  lemma {:induction false} SieveOfNumbered(s: seq<Letter>, critical: bool)
    requires Numbered(s)
    ensures Rising(Sieve(s, critical)) && Uniform(Sieve(s, critical), critical)
  {
    SieveIsUniform(s, critical);
    hide Uniform;
    if s != [] {
      var n := |s| - 1;
      SieveOfNumbered(s[..n], critical);
      SieveIsUniform(s[..n], critical);
      assert forall m <- Sieve(s[..n], critical) :: m.sequence < n;
    }
  }

  lemma {:induction false} SieveSplits(s: seq<Letter>)
    ensures multiset(s) == multiset(Sieve(s, true)) + multiset(Sieve(s, false))
  {
    if s != [] {
      assert s == s[..|s| - 1] + [s[|s| - 1]];
      SieveSplits(s[..|s| - 1]);
    }
  }

  // ----- The channel as a value -----

  datatype Link = Link(
    capacity: int,
    throttled: bool,
    maxInFlight: int,
    heap: seq<Letter>,
    outbound: seq<Letter>,
    pending: map<string, Letter>,
    inFlight: map<string, real>,
    sent: nat,
    acks: nat,
    dropped: nat,
    average: real,
    history: seq<Letter>)

  const MAX_IN_FLIGHT := 100

  function Opened(capacity: int): Link {
    Link(capacity, false, MAX_IN_FLIGHT, [], [], map[], map[], 0, 0, 0, 0.0, [])
  }

  predicate Accepts(c: Link) {
    !(c.throttled && |c.inFlight| >= c.maxInFlight) && |c.outbound| < c.capacity
  }

  function Sent(c: Link, id: string, priority: Priority, requiresAck: bool, now: real): Link {
    if !Accepts(c) then c.(dropped := c.dropped + 1)
    else
      var m := Letter(id, priority, c.sent, requiresAck);
      c.(heap := if priority.Critical? then c.heap + [m] else c.heap,
         outbound := if priority.Critical? then c.outbound else c.outbound + [m],
         pending := if requiresAck then c.pending[id := m] else c.pending,
         inFlight := if requiresAck then c.inFlight[id := now] else c.inFlight,
         sent := c.sent + 1,
         history := c.history + [m])
  }

  function Averaged(c: Link, latency: real): real {
    (c.average * c.acks as real + latency) / (c.acks + 1) as real
  }

  function Acknowledged(c: Link, id: string, now: real): Link {
    if id !in c.pending then c
    else
      c.(acks := c.acks + 1,
         average := if id in c.inFlight then Averaged(c, (now - c.inFlight[id]) * 1000.0) else c.average,
         inFlight := c.inFlight - {id},
         pending := c.pending - {id})
  }

  /** The position of a least letter, the first of equals. */
  function Least(heap: seq<Letter>): (i: nat)
    requires heap != []
    ensures i < |heap|
    ensures forall j :: 0 <= j < |heap| ==> !Less(heap[j], heap[i])
  {
    if |heap| == 1 then 0
    else
      var n := |heap| - 1;
      var i := Least(heap[..n]);
      assert forall j :: 0 <= j < n ==> !Less(heap[..n][j], heap[i]);
      if Less(heap[n], heap[i]) then n else i
  }

  function DrainHeap(heap: seq<Letter>, messages: seq<Letter>, capacity: int): (seq<Letter>, seq<Letter>)
    decreases |heap|
  {
    if heap == [] || |messages| >= capacity then (heap, messages)
    else
      var i := Least(heap);
      DrainHeap(heap[..i] + heap[i + 1..], messages + [heap[i]], capacity)
  }

  function DrainQueue(queue: seq<Letter>, messages: seq<Letter>, capacity: int): (seq<Letter>, seq<Letter>)
    decreases |queue|
  {
    if queue == [] || |messages| >= capacity then (queue, messages)
    else DrainQueue(queue[1..], messages + [queue[0]], capacity)
  }

  function Batch(c: Link): seq<Letter> {
    DrainQueue(c.outbound, DrainHeap(c.heap, [], c.capacity).1, c.capacity).1
  }

  function Flushed(c: Link): Link {
    var (heap, messages) := DrainHeap(c.heap, [], c.capacity);
    c.(heap := heap, outbound := DrainQueue(c.outbound, messages, c.capacity).0)
  }

  // ----- Runs -----

  datatype Call =
    | Send(id: string, priority: Priority, requiresAck: bool, now: real)
    | Acknowledge(id: string, now: real)
    | Flush
    | Throttle(on: bool)

  function Apply(c: Link, call: Call): Link {
    match call
    case Send(id, priority, requiresAck, now) => Sent(c, id, priority, requiresAck, now)
    case Acknowledge(id, now) => Acknowledged(c, id, now)
    case Flush => Flushed(c)
    case Throttle(on) => c.(throttled := on)
  }

  /** What the calls amounted to: everything flushed, when each accepted message that wants an
      acknowledgement was sent, how long each acknowledgement took, and whose they were. */
  datatype Past = Past(flushed: seq<Letter>, sentAt: map<string, real>, latencies: seq<real>, acked: set<string>)

  ghost function Remember(c: Link, past: Past, call: Call): Past {
    match call
    case Send(id, _, requiresAck, now) =>
      if Accepts(c) && requiresAck then past.(sentAt := past.sentAt[id := now]) else past
    case Acknowledge(id, now) =>
      if id in c.pending && id in past.sentAt then
        past.(latencies := past.latencies + [(now - past.sentAt[id]) * 1000.0], acked := past.acked + {id})
      else past
    case Flush => past.(flushed := past.flushed + Batch(c))
    case Throttle(_) => past
  }

  datatype State = State(link: Link, past: Past)

  /** A message identifier is new when it is issued. */
  ghost predicate Allowed(c: Link, call: Call) {
    call.Send? ==> forall m <- c.history :: m.id != call.id
  }

  ghost function Next(s: State, call: Call): State {
    State(Apply(s.link, call), Remember(s.link, s.past, call))
  }

  ghost function Run(capacity: int, calls: seq<Call>): State {
    if calls == [] then State(Opened(capacity), Past([], map[], [], {}))
    else Next(Run(capacity, calls[..|calls| - 1]), calls[|calls| - 1])
  }

  ghost predicate Legal(capacity: int, calls: seq<Call>) {
    calls == [] ||
    (Legal(capacity, calls[..|calls| - 1]) &&
     Allowed(Run(capacity, calls[..|calls| - 1]).link, calls[|calls| - 1]))
  }

  // ----- Order -----

  /** Accepted messages are numbered in order, and those of each kind are the ones flushed
      followed by the ones waiting. */
  ghost predicate Ordered(c: Link, flushed: seq<Letter>) {
    c.sent == |c.history| && Numbered(c.history) &&
    Sieve(c.history, true) == Sieve(flushed, true) + c.heap &&
    Sieve(c.history, false) == Sieve(flushed, false) + c.outbound
  }

  lemma WaitingAreRising(c: Link, flushed: seq<Letter>)
    requires Ordered(c, flushed)
    ensures Rising(c.heap) && Uniform(c.heap, true)
    ensures Rising(c.outbound) && Uniform(c.outbound, false)
  {
    SieveOfNumbered(c.history, true);
    SieveOfNumbered(c.history, false);
    RisingSuffix(Sieve(flushed, true), c.heap, true);
    RisingSuffix(Sieve(flushed, false), c.outbound, false);
  }

  lemma RisingSuffix(s: seq<Letter>, t: seq<Letter>, critical: bool)
    requires Rising(s + t) && Uniform(s + t, critical)
    ensures Rising(t) && Uniform(t, critical)
  {
    assert forall i :: 0 <= i < |t| ==> t[i] == (s + t)[|s| + i];
  }

  /** How many of `n` waiting messages fit after `taken` others. */
  function Room(capacity: int, taken: nat, n: nat): (k: nat)
    ensures k <= n
  {
    if capacity <= taken then 0 else if capacity - taken < n then capacity - taken else n
  }

  lemma LeastOfRising(heap: seq<Letter>)
    requires heap != [] && Rising(heap) && Uniform(heap, true)
    ensures Least(heap) == 0
  {
    assert !Less(heap[0], heap[Least(heap)]);
  }

  lemma TakeNext(s: seq<Letter>, messages: seq<Letter>, k: nat)
    requires 0 < k <= |s|
    ensures (messages + [s[0]]) + s[1..][..k - 1] == messages + s[..k]
    ensures s[1..][k - 1..] == s[k..]
  {
  }

  lemma Regroup(flushed: seq<Letter>, s: seq<Letter>, k: nat)
    requires k <= |s|
    ensures flushed + s[..k] + s[k..] == flushed + s
  {
  }

  lemma {:induction false} DrainHeapTakesPrefix(heap: seq<Letter>, messages: seq<Letter>, capacity: int)
    requires Rising(heap) && Uniform(heap, true)
    ensures var k := Room(capacity, |messages|, |heap|);
      DrainHeap(heap, messages, capacity) == (heap[k..], messages + heap[..k])
    decreases |heap|
  {
    hide Rising, Uniform, Least;
    var k := Room(capacity, |messages|, |heap|);
    if heap == [] || |messages| >= capacity {
      assert messages + heap[..k] == messages;
    } else {
      LeastOfRising(heap);
      var rest, taken := heap[1..], messages + [heap[0]];
      assert heap[..0] + heap[1..] == rest;
      assert heap == [heap[0]] + rest;
      RisingSuffix([heap[0]], rest, true);
      DrainHeapTakesPrefix(rest, taken, capacity);
      TakeNext(heap, messages, k);
    }
  }

  lemma {:induction false} DrainQueueTakesPrefix(queue: seq<Letter>, messages: seq<Letter>, capacity: int)
    ensures var k := Room(capacity, |messages|, |queue|);
      DrainQueue(queue, messages, capacity) == (queue[k..], messages + queue[..k])
    decreases |queue|
  {
    var k := Room(capacity, |messages|, |queue|);
    if queue == [] || |messages| >= capacity {
      assert messages + queue[..k] == messages;
    } else {
      var rest, taken := queue[1..], messages + [queue[0]];
      DrainQueueTakesPrefix(rest, taken, capacity);
      TakeNext(queue, messages, k);
    }
  }

  /** A batch is the oldest waiting critical messages and then, only if none is left, the oldest
      others; together as many as there is room for. */
  lemma BatchTakes(c: Link, flushed: seq<Letter>)
    requires Ordered(c, flushed)
    ensures var k := Room(c.capacity, 0, |c.heap|);
      var l := Room(c.capacity, k, |c.outbound|);
      Batch(c) == c.heap[..k] + c.outbound[..l] &&
      Flushed(c) == c.(heap := c.heap[k..], outbound := c.outbound[l..]) &&
      (l > 0 ==> k == |c.heap|) &&
      |Batch(c)| == Room(c.capacity, 0, |c.heap| + |c.outbound|)
  {
    hide Ordered, Rising, Uniform, DrainHeap, DrainQueue;
    WaitingAreRising(c, flushed);
    DrainHeapTakesPrefix(c.heap, [], c.capacity);
    var k := Room(c.capacity, 0, |c.heap|);
    assert [] + c.heap[..k] == c.heap[..k];
    DrainQueueTakesPrefix(c.outbound, c.heap[..k], c.capacity);
  }

  lemma {:induction false} SieveTakes(s: seq<Letter>, k: nat, critical: bool)
    requires Uniform(s, critical) && k <= |s|
    ensures Sieve(s[..k], critical) == s[..k] && Sieve(s[..k], !critical) == []
  {
    SieveKeepsAll(s[..k], critical);
  }

  lemma FlushKeepsOrdered(c: Link, flushed: seq<Letter>)
    requires Ordered(c, flushed)
    ensures Ordered(Flushed(c), flushed + Batch(c))
  {
    hide Numbered, Batch, Flushed, Sieve, Rising, Uniform;
    var k := Room(c.capacity, 0, |c.heap|);
    var l := Room(c.capacity, k, |c.outbound|);
    BatchTakes(c, flushed);
    WaitingAreRising(c, flushed);
    SieveTakes(c.heap, k, true);
    SieveTakes(c.outbound, l, false);
    BatchSieved(flushed, c.heap[..k], c.outbound[..l]);
    Regroup(Sieve(flushed, true), c.heap, k);
    Regroup(Sieve(flushed, false), c.outbound, l);
  }

  lemma BatchSieved(flushed: seq<Letter>, a: seq<Letter>, b: seq<Letter>)
    requires Sieve(a, true) == a && Sieve(a, false) == [] && Sieve(b, false) == b && Sieve(b, true) == []
    ensures Sieve(flushed + (a + b), true) == Sieve(flushed, true) + a
    ensures Sieve(flushed + (a + b), false) == Sieve(flushed, false) + b
  {
    hide Sieve;
    SieveConcat(flushed, a + b, true);
    SieveConcat(flushed, a + b, false);
    SieveConcat(a, b, true);
    SieveConcat(a, b, false);
  }

  lemma SendKeepsOrdered(c: Link, flushed: seq<Letter>, id: string, priority: Priority, requiresAck: bool, now: real)
    requires Ordered(c, flushed)
    ensures Ordered(Sent(c, id, priority, requiresAck, now), flushed)
  {
    if Accepts(c) {
      var m := Letter(id, priority, c.sent, requiresAck);
      assert (c.history + [m])[..|c.history|] == c.history;
    }
  }

  lemma {:induction false} RunIsOrdered(capacity: int, calls: seq<Call>)
    ensures var s := Run(capacity, calls); Ordered(s.link, s.past.flushed)
  {
    if calls != [] {
      RunIsOrdered(capacity, calls[..|calls| - 1]);
      var s, call := Run(capacity, calls[..|calls| - 1]), calls[|calls| - 1];
      match call
      case Send(id, priority, requiresAck, now) => SendKeepsOrdered(s.link, s.past.flushed, id, priority, requiresAck, now);
      case Flush => FlushKeepsOrdered(s.link, s.past.flushed);
      case _ =>
    }
  }

  /** Over any calls: each accepted message is flushed once or waits in one place, and each of
      the two kinds leaves in the order sent. */
  lemma AcceptedLeaveOnceInOrder(capacity: int, calls: seq<Call>)
    ensures var s := Run(capacity, calls);
      multiset(s.link.history) == multiset(s.past.flushed) + multiset(s.link.heap) + multiset(s.link.outbound) &&
      Rising(s.link.history) &&
      Rising(Sieve(s.past.flushed, true) + s.link.heap) &&
      Rising(Sieve(s.past.flushed, false) + s.link.outbound)
  {
    var s := Run(capacity, calls);
    RunIsOrdered(capacity, calls);
    SieveSplits(s.link.history);
    SieveSplits(s.past.flushed);
    SieveOfNumbered(s.link.history, true);
    SieveOfNumbered(s.link.history, false);
  }

  /** When a flush lets a regular message out, every critical message accepted so far has left,
      before it. */
  lemma NoRegularLeavesWhileCriticalWaits(capacity: int, calls: seq<Call>, i: nat)
    requires var s := Run(capacity, calls); i < |Batch(s.link)| && !Batch(s.link)[i].priority.Critical?
    ensures var s := Run(capacity, calls);
      Flushed(s.link).heap == [] &&
      Sieve(s.past.flushed + Batch(s.link)[..i], true) == Sieve(s.link.history, true)
  {
    var s := Run(capacity, calls);
    RunIsOrdered(capacity, calls);
    BatchTakes(s.link, s.past.flushed);
    WaitingAreRising(s.link, s.past.flushed);
    var k := Room(s.link.capacity, 0, |s.link.heap|);
    assert i >= k;
    var early := s.link.outbound[..i - k];
    assert s.link.heap[..k] == s.link.heap;
    assert Batch(s.link)[..i] == s.link.heap + early;
    SieveKeepsAll(s.link.heap, true);
    SieveKeepsAll(early, false);
    BatchSieved(s.past.flushed, s.link.heap, early);
  }

  /** The capacity bounds the regular queue. */
  lemma {:induction false} RegularsAreBounded(capacity: int, calls: seq<Call>)
    ensures Run(capacity, calls).link.capacity == capacity
    ensures |Run(capacity, calls).link.outbound| <= if capacity < 0 then 0 else capacity
  {
    hide Ordered, Batch, Flushed;
    if calls != [] {
      var past := calls[..|calls| - 1];
      RegularsAreBounded(capacity, past);
      RunIsOrdered(capacity, past);
      var s := Run(capacity, past);
      BatchTakes(s.link, s.past.flushed);
    }
  }

  function CriticalSends(ids: seq<string>): seq<Call> {
    seq(|ids|, i requires 0 <= i < |ids| => Send(ids[i], Critical, false, 0.0))
  }

  /** Nothing bounds the critical ones: with capacity 1 every one of any number is accepted. */
  lemma {:induction false} CriticalsAreUnbounded(ids: seq<string>)
    requires Distinct(ids)
    ensures Legal(1, CriticalSends(ids))
    ensures var c := Run(1, CriticalSends(ids)).link;
      |c.heap| == |ids| && c.outbound == [] && !c.throttled && c.capacity == 1 &&
      |c.history| == |ids| && forall i :: 0 <= i < |ids| ==> c.history[i].id == ids[i]
  {
    if ids != [] {
      var n := |ids| - 1;
      CriticalsAreUnbounded(ids[..n]);
      assert CriticalSends(ids)[..n] == CriticalSends(ids[..n]);
      var c := Run(1, CriticalSends(ids[..n])).link;
      forall m | m in c.history ensures m.id != ids[n] {
        var i :| 0 <= i < n && c.history[i] == m;
      }
    }
  }

  // ----- Flow control -----

  ghost predicate KeepsThrottle(calls: seq<Call>) {
    forall c <- calls :: c.Throttle? ==> c.on
  }

  ghost function After(c: Link, calls: seq<Call>): Link {
    if calls == [] then c else Apply(After(c, calls[..|calls| - 1]), calls[|calls| - 1])
  }

  lemma ThrottledStep(c: Link, call: Call)
    requires c.throttled && (call.Throttle? ==> call.on)
    ensures var d := Apply(c, call);
      d.throttled && d.maxInFlight == c.maxInFlight &&
      |d.inFlight| <= if |c.inFlight| < c.maxInFlight then c.maxInFlight else |c.inFlight|
  {
    hide DrainHeap, DrainQueue, Averaged;
    match call
    case Send(id, priority, requiresAck, now) => FlightSizes(c.inFlight, id, now);
    case Acknowledge(id, now) => FlightSizes(c.inFlight, id, now);
    case _ =>
  }

  lemma FlightSizes(inFlight: map<string, real>, id: string, now: real)
    ensures |inFlight[id := now]| <= |inFlight| + 1
    ensures |inFlight - {id}| <= |inFlight|
  {
    var keys := inFlight.Keys;
    assert inFlight[id := now].Keys == keys + {id} && |keys + {id}| <= |keys| + 1;
    assert |inFlight[id := now]| == |inFlight[id := now].Keys|;
    assert (inFlight - {id}).Keys == keys - {id} && |keys - {id}| <= |keys|;
    assert |inFlight - {id}| == |(inFlight - {id}).Keys| && |inFlight| == |keys|;
  }

  /** From the moment throttling is on, and for as long, the number in flight stays within the
      maximum, or within the number there was at that moment if that was greater. */
  lemma {:induction false} ThrottleBoundsInFlight(c: Link, calls: seq<Call>)
    requires c.throttled && KeepsThrottle(calls)
    ensures var d := After(c, calls);
      d.throttled && d.maxInFlight == c.maxInFlight &&
      |d.inFlight| <= if |c.inFlight| < c.maxInFlight then c.maxInFlight else |c.inFlight|
  {
    hide Apply;
    if calls != [] {
      assert calls[|calls| - 1] in calls;
      assert forall k <- calls[..|calls| - 1] :: k in calls;
      ThrottleBoundsInFlight(c, calls[..|calls| - 1]);
      ThrottledStep(After(c, calls[..|calls| - 1]), calls[|calls| - 1]);
    }
  }

  // ----- Acknowledgements -----

  function Sum(s: seq<real>): real {
    if s == [] then 0.0 else Sum(s[..|s| - 1]) + s[|s| - 1]
  }

  /** Messages in flight are the ones whose acknowledgement is pending, each with the time it was
      sent. */
  ghost predicate Tracked(c: Link, past: Past) {
    c.pending.Keys == c.inFlight.Keys &&
    (forall id <- c.pending :: c.pending[id].id == id && c.pending[id].requiresAck && c.pending[id] in c.history) &&
    (forall id <- c.inFlight :: id in past.sentAt && past.sentAt[id] == c.inFlight[id])
  }

  ghost predicate Averages(c: Link, past: Past) {
    |past.latencies| == c.acks && c.average * c.acks as real == Sum(past.latencies)
  }

  lemma AverageAdvances(average: real, acks: nat, latency: real)
    ensures ((average * acks as real + latency) / (acks + 1) as real) * (acks + 1) as real == average * acks as real + latency
  {
    var total, n := average * acks as real + latency, (acks + 1) as real;
    assert total / n * n == total;
  }

  lemma AcknowledgeKeepsTracked(c: Link, past: Past, id: string, now: real)
    requires Tracked(c, past)
    ensures Tracked(Acknowledged(c, id, now), Remember(c, past, Acknowledge(id, now)))
  {
  }

  lemma AcknowledgeKeepsAverages(c: Link, past: Past, id: string, now: real)
    requires Tracked(c, past) && Averages(c, past)
    ensures Averages(Acknowledged(c, id, now), Remember(c, past, Acknowledge(id, now)))
  {
    if id in c.pending {
      assert id in c.inFlight && id in past.sentAt;
      var latency := (now - past.sentAt[id]) * 1000.0;
      AverageAdvances(c.average, c.acks, latency);
      assert (past.latencies + [latency])[..|past.latencies|] == past.latencies;
    }
  }

  lemma SendKeepsTracked(c: Link, past: Past, call: Call)
    requires call.Send? && Tracked(c, past)
    ensures Tracked(Apply(c, call), Remember(c, past, call))
  {
  }

  /** Over any calls the reported average times the number of acknowledgements is the sum of the
      times between sending and acknowledging. */
  lemma {:induction false} AverageIsOfLatencies(capacity: int, calls: seq<Call>)
    ensures var s := Run(capacity, calls); Tracked(s.link, s.past) && Averages(s.link, s.past)
  {
    hide Tracked, Averages;
    if calls == [] {
      OpenedIsTracked(capacity);
    } else {
      AverageIsOfLatencies(capacity, calls[..|calls| - 1]);
      var s := Run(capacity, calls[..|calls| - 1]);
      StepKeepsTracked(s.link, s.past, calls[|calls| - 1]);
    }
  }

  lemma OpenedIsTracked(capacity: int)
    ensures Tracked(Opened(capacity), Past([], map[], [], {})) && Averages(Opened(capacity), Past([], map[], [], {}))
  {
  }

  lemma StepKeepsTracked(c: Link, past: Past, call: Call)
    requires Tracked(c, past) && Averages(c, past)
    ensures Tracked(Apply(c, call), Remember(c, past, call)) && Averages(Apply(c, call), Remember(c, past, call))
  {
    hide Tracked, Averages;
    match call
    case Send(_, _, _, _) =>
      SendKeepsTracked(c, past, call);
      AveragesLookAtAcks(c, past, Apply(c, call), Remember(c, past, call));
    case Acknowledge(id, now) =>
      AcknowledgeKeepsTracked(c, past, id, now);
      AcknowledgeKeepsAverages(c, past, id, now);
    case _ =>
      TrackedLooksAtMessages(c, past, Apply(c, call), Remember(c, past, call));
      AveragesLookAtAcks(c, past, Apply(c, call), Remember(c, past, call));
  }

  lemma AveragesLookAtAcks(c: Link, past: Past, d: Link, later: Past)
    requires Averages(c, past) && c.acks == d.acks && c.average == d.average && past.latencies == later.latencies
    ensures Averages(d, later)
  {
  }

  lemma TrackedLooksAtMessages(c: Link, past: Past, d: Link, later: Past)
    requires Tracked(c, past) && past.sentAt == later.sentAt
    requires c.pending == d.pending && c.inFlight == d.inFlight && c.history == d.history
    ensures Tracked(d, later)
  {
  }

  /** Exactly the accepted messages that want an acknowledgement and have had none are pending. */
  ghost predicate Awaited(c: Link, acked: set<string>) {
    (forall i, j :: 0 <= i < j < |c.history| ==> c.history[i].id != c.history[j].id) &&
    (forall m <- c.history :: m.id in c.pending <==> m.requiresAck && m.id !in acked) &&
    (forall id <- acked :: exists m <- c.history :: m.id == id && m.requiresAck)
  }

  lemma SendKeepsAwaited(c: Link, past: Past, call: Call)
    requires call.Send? && Allowed(c, call)
    requires Tracked(c, past) && Awaited(c, past.acked)
    ensures Awaited(Apply(c, call), past.acked)
  {
    if Accepts(c) {
      var d := Apply(c, call);
      assert forall m <- c.history :: m in d.history;
    }
  }

  lemma AcknowledgeKeepsAwaited(c: Link, past: Past, call: Call)
    requires call.Acknowledge?
    requires Tracked(c, past) && Awaited(c, past.acked)
    ensures Awaited(Apply(c, call), Remember(c, past, call).acked)
    ensures Remember(c, past, call).acked == past.acked + if call.id in c.pending then {call.id} else {}
    ensures call.id in c.pending ==> call.id !in past.acked
  {
    if call.id in c.pending {
      assert call.id in c.inFlight;
    }
  }

  /** Over calls with fresh identifiers, a message is pending from its acceptance until its one
      acknowledgement, and every acknowledgement is counted. */
  lemma {:induction false} PendingExactlyUntilAcknowledged(capacity: int, calls: seq<Call>)
    requires Legal(capacity, calls)
    ensures var s := Run(capacity, calls); Awaited(s.link, s.past.acked) && |s.past.acked| == s.link.acks
  {
    hide Awaited, Tracked, Averages;
    if calls == [] {
      assert Awaited(Opened(capacity), {}) by { OpenedIsAwaited(capacity); }
    } else {
      var past, call := calls[..|calls| - 1], calls[|calls| - 1];
      var s := Run(capacity, past);
      PendingExactlyUntilAcknowledged(capacity, past);
      AverageIsOfLatencies(capacity, past);
      StepKeepsAwaited(s.link, s.past, call);
    }
  }

  lemma OpenedIsAwaited(capacity: int)
    ensures Awaited(Opened(capacity), {})
  {
  }

  lemma StepKeepsAwaited(c: Link, past: Past, call: Call)
    requires Allowed(c, call) && Tracked(c, past) && Awaited(c, past.acked) && |past.acked| == c.acks
    ensures Awaited(Apply(c, call), Remember(c, past, call).acked)
    ensures |Remember(c, past, call).acked| == Apply(c, call).acks
  {
    hide Awaited, Tracked, Allowed;
    match call
    case Send(_, _, _, _) => SendKeepsAwaited(c, past, call);
    case Acknowledge(_, _) => AcknowledgeKeepsAwaited(c, past, call);
    case _ => AwaitedLooksAtMessages(c, Apply(c, call), past.acked);
  }

  lemma AwaitedLooksAtMessages(c: Link, d: Link, acked: set<string>)
    requires Awaited(c, acked) && c.history == d.history && c.pending == d.pending
    ensures Awaited(d, acked)
  {
  }

  // ----- The channel -----

  class Message {
    const letter: Letter
    var ackReceived: bool

    constructor (letter: Letter)
      ensures this.letter == letter && !ackReceived
    {
      this.letter, ackReceived := letter, false;
    }
  }

  function Letters(s: seq<Message>): (r: seq<Letter>)
    ensures |r| == |s|
    ensures forall i :: 0 <= i < |s| ==> r[i] == s[i].letter
  {
    if s == [] then [] else Letters(s[..|s| - 1]) + [s[|s| - 1].letter]
  }

  lemma LettersAppend(s: seq<Message>, m: Message)
    ensures Letters(s + [m]) == Letters(s) + [m.letter]
  {
    hide Letters;
  }

  lemma LettersWithout(s: seq<Message>, i: nat)
    requires i < |s|
    ensures Letters(s[..i] + s[i + 1..]) == Letters(s)[..i] + Letters(s)[i + 1..]
  {
    hide Letters;
  }

  lemma LettersTail(s: seq<Message>)
    requires s != []
    ensures Letters(s[1..]) == Letters(s)[1..]
  {
    hide Letters;
  }

  function Posted(pending: map<string, Message>): (posted: map<string, Letter>)
    ensures posted.Keys == pending.Keys
  {
    map id | id in pending :: pending[id].letter
  }

  lemma PostedPut(pending: map<string, Message>, id: string, m: Message)
    ensures Posted(pending[id := m]) == Posted(pending)[id := m.letter]
  {
  }

  lemma PostedRemove(pending: map<string, Message>, id: string)
    ensures Posted(pending - {id}) == Posted(pending) - {id}
  {
  }

  /** Pending messages are recorded ones, under their own identifiers. */
  ghost predicate Listed(history: seq<Message>, pending: map<string, Message>) {
    (forall i, j :: 0 <= i < j < |history| ==> history[i].letter.id != history[j].letter.id) &&
    (forall id <- pending :: pending[id] in history && pending[id].letter.id == id && pending[id].letter.requiresAck)
  }

  /** A recorded message is marked exactly when its acknowledgement was wanted and has come. */
  ghost predicate Marked(history: seq<Message>, pending: map<string, Message>)
    reads history
  {
    forall m <- history :: m.ackReceived <==> m.letter.requiresAck && m.letter.id !in pending
  }

  class InterDomainChannel {
    var capacity: int
    var backpressureEnabled: bool
    var maxInFlight: int
    /** The heap, as the messages pushed and not yet popped. */
    var priorityQueue: seq<Message>
    var outboundQueue: seq<Message>
    var pendingAcks: map<string, Message>
    var inFlightMessages: map<string, real>
    var messageHistory: seq<Message>
    var totalMessagesSent: nat
    var totalAcksReceived: nat
    var totalMessagesDropped: nat
    var averageLatency: real

    ghost function View(): Link
      reads this
    {
      Link(capacity, backpressureEnabled, maxInFlight, Letters(priorityQueue), Letters(outboundQueue),
           Posted(pendingAcks), inFlightMessages,
           totalMessagesSent, totalAcksReceived, totalMessagesDropped, averageLatency, Letters(messageHistory))
    }

    ghost predicate Valid()
      reads this, messageHistory
    {
      Listed(messageHistory, pendingAcks) && Marked(messageHistory, pendingAcks)
    }

    constructor (capacity: int)
      ensures Valid() && View() == Opened(capacity)
    {
      this.capacity, backpressureEnabled, maxInFlight := capacity, false, MAX_IN_FLIGHT;
      priorityQueue, outboundQueue, messageHistory := [], [], [];
      pendingAcks, inFlightMessages := map[], map[];
      totalMessagesSent, totalAcksReceived, totalMessagesDropped, averageLatency := 0, 0, 0, 0.0;
      new;
      assert View() == Opened(capacity);
    }

    /** `id` is the identifier drawn for the message and `now` the reading of the clock. */
    method SendMessage(id: string, priority: Priority, requiresAck: bool, now: real) returns (sent: Option<string>)
      requires Valid()
      requires forall m <- messageHistory :: m.letter.id != id
      modifies this
      ensures Valid()
      ensures View() == Sent(old(View()), id, priority, requiresAck, now)
      ensures sent == if Accepts(old(View())) then Some(id) else None
      ensures sent.Some? <==>
        !(backpressureEnabled && |old(inFlightMessages)| >= maxInFlight) && |old(outboundQueue)| < capacity
      ensures sent.None? ==> messageHistory == old(messageHistory)
      ensures sent.Some? ==> |messageHistory| == |old(messageHistory)| + 1 && old(messageHistory) <= messageHistory
      ensures forall i :: 0 <= i < |messageHistory| ==> messageHistory[i] in old(messageHistory) || fresh(messageHistory[i])
    {
      hide Letters, Posted, Listed, Marked;
      if backpressureEnabled && |inFlightMessages| >= maxInFlight {
        totalMessagesDropped := totalMessagesDropped + 1;
        return None;
      }
      if |outboundQueue| >= capacity {
        totalMessagesDropped := totalMessagesDropped + 1;
        return None;
      }
      var message := new Message(Letter(id, priority, totalMessagesSent, requiresAck));
      Post(message, now);
      return Some(id);
    }

    /** Puts a new message where it waits and records it. */
    method Post(message: Message, now: real)
      requires Valid() && Accepts(View())
      requires forall m <- messageHistory :: m.letter.id != message.letter.id
      requires !message.ackReceived && message.letter.sequence == totalMessagesSent
      modifies this
      ensures Valid()
      ensures var m := message.letter; View() == Sent(old(View()), m.id, m.priority, m.requiresAck, now)
      ensures messageHistory == old(messageHistory) + [message]
    {
      hide Letters, Posted, Listed, Marked, Accepts;
      ghost var before := pendingAcks;
      Enqueue(message);
      Await(message, now);
      RecordNew(messageHistory, before, message);
      LettersAppend(messageHistory, message);
      totalMessagesSent := totalMessagesSent + 1;
      messageHistory := messageHistory + [message];
    }

    method Enqueue(message: Message)
      modifies this`priorityQueue, this`outboundQueue
      ensures var c, m := old(View()), message.letter;
        View() == c.(heap := if m.priority.Critical? then c.heap + [m] else c.heap,
                     outbound := if m.priority.Critical? then c.outbound else c.outbound + [m])
    {
      hide Letters, Posted;
      LettersAppend(priorityQueue, message);
      LettersAppend(outboundQueue, message);
      if message.letter.priority.Critical? {
        priorityQueue := priorityQueue + [message];
      } else {
        outboundQueue := outboundQueue + [message];
      }
    }

    method Await(message: Message, now: real)
      modifies this`pendingAcks, this`inFlightMessages
      ensures pendingAcks == if message.letter.requiresAck then old(pendingAcks)[message.letter.id := message] else old(pendingAcks)
      ensures var c, m := old(View()), message.letter;
        View() == c.(pending := if m.requiresAck then c.pending[m.id := m] else c.pending,
                     inFlight := if m.requiresAck then c.inFlight[m.id := now] else c.inFlight)
    {
      hide Letters, Posted;
      PostedPut(pendingAcks, message.letter.id, message);
      if message.letter.requiresAck {
        pendingAcks := pendingAcks[message.letter.id := message];
        inFlightMessages := inFlightMessages[message.letter.id := now];
      }
    }

    method MarkReceived(id: string)
      requires Valid() && id in pendingAcks
      modifies pendingAcks[id]
      ensures pendingAcks[id].ackReceived
      ensures Marked(messageHistory, pendingAcks - {id})
    {
      var message := pendingAcks[id];
      message.ackReceived := true;
    }

    method AcknowledgeMessage(id: string, now: real) returns (known: bool)
      requires Valid()
      modifies this, if id in pendingAcks then {pendingAcks[id]} else {}
      ensures Valid()
      ensures View() == Acknowledged(old(View()), id, now)
      ensures known == (id in old(pendingAcks))
      ensures messageHistory == old(messageHistory)
      ensures known ==> old(pendingAcks[id]).ackReceived
    {
      hide Letters, Posted, Listed, Marked, Averaged;
      if id !in pendingAcks {
        return false;
      }
      PostedRemove(pendingAcks, id);
      Unlist(messageHistory, pendingAcks, id);
      MarkReceived(id);
      totalAcksReceived := totalAcksReceived + 1;
      Measure(id, now);
      pendingAcks := pendingAcks - {id};
      return true;
    }

    /** Takes a message that was in flight into the average. */
    method Measure(id: string, now: real)
      requires totalAcksReceived > 0
      modifies this`averageLatency, this`inFlightMessages
      ensures var c := old(View());
        View() == c.(average := if id in c.inFlight then Averaged(c.(acks := c.acks - 1), (now - c.inFlight[id]) * 1000.0) else c.average,
                     inFlight := c.inFlight - {id})
    {
      hide Letters, Posted;
      if id in inFlightMessages {
        var sendTime := inFlightMessages[id];
        var latency := (now - sendTime) * 1000.0;
        var oldCount := totalAcksReceived - 1;
        averageLatency := (averageLatency * oldCount as real + latency) / totalAcksReceived as real;
        inFlightMessages := inFlightMessages - {id};
      } else {
        assert inFlightMessages - {id} == inFlightMessages;
      }
    }

    /** Takes a least message, by the messages' own order, off the heap. */
    method PopLeast() returns (message: Message)
      requires priorityQueue != []
      modifies this`priorityQueue
      ensures var i := Least(old(Letters(priorityQueue)));
        message == old(priorityQueue)[i] && priorityQueue == old(priorityQueue)[..i] + old(priorityQueue)[i + 1..]
    {
      var i := Least(Letters(priorityQueue));
      message := priorityQueue[i];
      priorityQueue := priorityQueue[..i] + priorityQueue[i + 1..];
    }

    method DrainPriority() returns (messages: seq<Message>)
      modifies this`priorityQueue
      ensures DrainHeap(old(Letters(priorityQueue)), [], capacity) == (Letters(priorityQueue), Letters(messages))
      ensures forall m <- messages :: m in old(priorityQueue)
    {
      hide Letters, Least;
      messages := [];
      while priorityQueue != [] && |messages| < capacity
        invariant DrainHeap(Letters(priorityQueue), Letters(messages), capacity) == DrainHeap(old(Letters(priorityQueue)), [], capacity)
        invariant forall m <- messages :: m in old(priorityQueue)
        invariant forall m <- priorityQueue :: m in old(priorityQueue)
        decreases |priorityQueue|
      {
        LettersWithout(priorityQueue, Least(Letters(priorityQueue)));
        var message := PopLeast();
        LettersAppend(messages, message);
        messages := messages + [message];
      }
    }

    method DrainRegular(taken: seq<Message>) returns (messages: seq<Message>)
      modifies this`outboundQueue
      ensures DrainQueue(old(Letters(outboundQueue)), Letters(taken), capacity) == (Letters(outboundQueue), Letters(messages))
      ensures forall m <- messages :: m in taken || m in old(outboundQueue)
    {
      hide Letters;
      messages := taken;
      while outboundQueue != [] && |messages| < capacity
        invariant DrainQueue(Letters(outboundQueue), Letters(messages), capacity) == DrainQueue(old(Letters(outboundQueue)), Letters(taken), capacity)
        invariant forall m <- messages :: m in taken || m in old(outboundQueue)
        invariant forall m <- outboundQueue :: m in old(outboundQueue)
        decreases |outboundQueue|
      {
        LettersTail(outboundQueue);
        LettersAppend(messages, outboundQueue[0]);
        messages := messages + [outboundQueue[0]];
        outboundQueue := outboundQueue[1..];
      }
    }

    method FlushOutbound() returns (messages: seq<Message>)
      requires Valid()
      modifies this`priorityQueue, this`outboundQueue
      ensures Valid()
      ensures View() == Flushed(old(View()))
      ensures Letters(messages) == Batch(old(View()))
      ensures forall m <- messages :: m in old(priorityQueue) || m in old(outboundQueue)
    {
      hide Listed, Marked, Posted, Letters;
      var urgent := DrainPriority();
      messages := DrainRegular(urgent);
    }
  }

  lemma RecordNew(history: seq<Message>, pending: map<string, Message>, message: Message)
    requires Listed(history, pending) && Marked(history, pending)
    requires forall m <- history :: m.letter.id != message.letter.id
    requires !message.ackReceived
    ensures var now := if message.letter.requiresAck then pending[message.letter.id := message] else pending;
      Listed(history + [message], now) && Marked(history + [message], now)
  {
    assert message in history + [message];
  }

  lemma Unlist(history: seq<Message>, pending: map<string, Message>, id: string)
    requires Listed(history, pending)
    ensures Listed(history, pending - {id})
    ensures id in pending ==> pending[id] in history
  {
  }
}
