/** Which messages a channel takes in, and how many wait, counted from the calls alone. */
module ChannelHistory {
  import opened Prelude
  import opened Channel

  /** How many regular and critical messages wait, whose acknowledgements are awaited, and whether
      backpressure is on. */
  datatype Standing = Standing(regular: nat, critical: nat, unanswered: set<string>, throttled: bool)

  ghost function Lesser(a: int, b: nat): nat {
    if a < 0 then 0 else if a < b then a else b
  }

  /** The standing after the calls: a send is taken in unless backpressure is on with a hundred or
      more unanswered, or as many regular messages wait as the capacity; a flush lets out critical
      ones and then regular ones, together up to the capacity. */
  ghost function StandingAfter(capacity: int, calls: seq<Call>): Standing {
    if calls == [] then Standing(0, 0, {}, false) else
      var s := StandingAfter(capacity, calls[..|calls| - 1]);
      match calls[|calls| - 1]
      case Send(id, priority, requiresAck, _) =>
        if !Taken(capacity, s) then s
        else
          s.(regular := if priority.Critical? then s.regular else s.regular + 1,
             critical := if priority.Critical? then s.critical + 1 else s.critical,
             unanswered := if requiresAck then s.unanswered + {id} else s.unanswered)
      case Acknowledge(id, _) => s.(unanswered := s.unanswered - {id})
      case Flush =>
        var k := Lesser(capacity, s.critical);
        s.(critical := s.critical - k, regular := s.regular - Lesser(capacity - k, s.regular))
      case Throttle(on) => s.(throttled := on)
  }

  ghost predicate Taken(capacity: int, s: Standing) {
    !(s.throttled && |s.unanswered| >= 100) && s.regular < capacity
  }

  /** The messages taken in, numbered in the order they were sent. */
  ghost function TakenIn(capacity: int, calls: seq<Call>): seq<Letter> {
    if calls == [] then [] else
      var front, call := calls[..|calls| - 1], calls[|calls| - 1];
      var rest := TakenIn(capacity, front);
      if call.Send? && Taken(capacity, StandingAfter(capacity, front)) then
        rest + [Letter(call.id, call.priority, |rest|, call.requiresAck)]
      else rest
  }

  /** How many sends were not taken in. */
  ghost function Refused(capacity: int, calls: seq<Call>): nat {
    if calls == [] then 0 else
      var front, call := calls[..|calls| - 1], calls[|calls| - 1];
      Refused(capacity, front) + if call.Send? && !Taken(capacity, StandingAfter(capacity, front)) then 1 else 0
  }

  ghost predicate Stands(c: Link, capacity: int, s: Standing) {
    c.capacity == capacity && c.maxInFlight == 100 && |c.outbound| == s.regular && |c.heap| == s.critical &&
    c.pending.Keys == s.unanswered && |c.inFlight| == |s.unanswered| && c.throttled == s.throttled
  }

  lemma SameSize(m: map<string, real>, keys: set<string>)
    requires m.Keys == keys
    ensures |m| == |keys|
  {
    assert |m| == |m.Keys|;
  }

  lemma StandsIsTaken(c: Link, capacity: int, s: Standing)
    requires Stands(c, capacity, s)
    ensures Accepts(c) <==> Taken(capacity, s)
  {
  }

  lemma SendStands(c: Link, past: Past, capacity: int, calls: seq<Call>, call: Call)
    requires call.Send? && Stands(c, capacity, StandingAfter(capacity, calls)) && Tracked(c, past)
    ensures Stands(Apply(c, call), capacity, StandingAfter(capacity, calls + [call]))
  {
    assert (calls + [call])[..|calls|] == calls;
    var d, s := Apply(c, call), StandingAfter(capacity, calls + [call]);
    SameSize(d.inFlight, d.pending.Keys);
  }

  lemma FlushStands(c: Link, past: Past, capacity: int, calls: seq<Call>)
    requires Stands(c, capacity, StandingAfter(capacity, calls)) && Ordered(c, past.flushed)
    ensures Stands(Apply(c, Flush), capacity, StandingAfter(capacity, calls + [Flush]))
  {
    assert (calls + [Flush])[..|calls|] == calls;
    BatchTakes(c, past.flushed);
    hide Flushed, Batch, Ordered;
  }

  lemma OtherStands(c: Link, past: Past, capacity: int, calls: seq<Call>, call: Call)
    requires (call.Acknowledge? || call.Throttle?) && Stands(c, capacity, StandingAfter(capacity, calls)) && Tracked(c, past)
    ensures Stands(Apply(c, call), capacity, StandingAfter(capacity, calls + [call]))
  {
    assert (calls + [call])[..|calls|] == calls;
    var d := Apply(c, call);
    SameSize(d.inFlight, d.pending.Keys);
  }

  /** After any calls as many messages of each kind wait, and as many acknowledgements are awaited,
      as the calls say. */
  lemma {:induction false} ChannelStands(capacity: int, calls: seq<Call>)
    ensures Stands(Run(capacity, calls).link, capacity, StandingAfter(capacity, calls))
  {
    hide Stands, Tracked, Averages, Ordered, Apply, Remember;
    if calls == [] {
      OpenedStands(capacity);
    } else {
      var front, call := calls[..|calls| - 1], calls[|calls| - 1];
      assert calls == front + [call];
      ChannelStands(capacity, front);
      AverageIsOfLatencies(capacity, front);
      RunIsOrdered(capacity, front);
      var s := Run(capacity, front);
      match call
      case Send(_, _, _, _) => SendStands(s.link, s.past, capacity, front, call);
      case Flush => FlushStands(s.link, s.past, capacity, front);
      case _ => OtherStands(s.link, s.past, capacity, front, call);
    }
  }

  lemma OpenedStands(capacity: int)
    ensures Stands(Run(capacity, []).link, capacity, StandingAfter(capacity, []))
  {
  }

  /** A send is taken in exactly when the calls before it leave room; it is then the last message of
      the history, as it was sent, and otherwise it is counted as dropped and nothing else changes. */
  lemma SendIsTakenExactlyWhen(capacity: int, calls: seq<Call>, id: string, priority: Priority, requiresAck: bool, now: real)
    ensures var c := Run(capacity, calls).link;
      var d, s := Apply(c, Send(id, priority, requiresAck, now)), StandingAfter(capacity, calls);
      if !(s.throttled && |s.unanswered| >= 100) && s.regular < capacity then
        d.history == c.history + [Letter(id, priority, |c.history|, requiresAck)] && d.dropped == c.dropped
      else d == c.(dropped := c.dropped + 1)
  {
    ChannelStands(capacity, calls);
    StandsIsTaken(Run(capacity, calls).link, capacity, StandingAfter(capacity, calls));
    RunIsOrdered(capacity, calls);
    hide Run, StandingAfter, Accepts, Stands;
  }

  lemma HistoryStep(c: Link, call: Call)
    requires !call.Send?
    ensures Apply(c, call).history == c.history && Apply(c, call).dropped == c.dropped
  {
    hide DrainHeap, DrainQueue, Averaged;
  }

  /** After any calls the history has exactly the messages taken in, as they were sent and numbered
      in that order, and those refused are counted. */
  lemma {:induction false} HistoryFollowsTheCalls(capacity: int, calls: seq<Call>)
    ensures var c := Run(capacity, calls).link;
      c.history == TakenIn(capacity, calls) && c.dropped == Refused(capacity, calls)
  {
    hide StandingAfter, Apply, Remember;
    if calls != [] {
      var front, call := calls[..|calls| - 1], calls[|calls| - 1];
      HistoryFollowsTheCalls(capacity, front);
      if call.Send? {
        SendIsTakenExactlyWhen(capacity, front, call.id, call.priority, call.requiresAck, call.now);
      } else {
        HistoryStep(Run(capacity, front).link, call);
      }
    }
  }

  /** What waits is the last messages taken in of each kind, and the next flush lets out the first of
      those, the critical before the others, as many as the capacity. */
  lemma WaitingFollowsTheCalls(capacity: int, calls: seq<Call>)
    ensures var c, s := Run(capacity, calls).link, StandingAfter(capacity, calls);
      var criticals, regulars := Sieve(TakenIn(capacity, calls), true), Sieve(TakenIn(capacity, calls), false);
      var k := Lesser(capacity, s.critical);
      s.critical <= |criticals| && s.regular <= |regulars| &&
      c.heap == criticals[|criticals| - s.critical..] && c.outbound == regulars[|regulars| - s.regular..] &&
      Batch(c) == c.heap[..k] + c.outbound[..Lesser(capacity - k, s.regular)]
  {
    hide Sieve, Batch, Flushed, Run, StandingAfter, TakenIn, Ordered;
    HistoryFollowsTheCalls(capacity, calls);
    ChannelStands(capacity, calls);
    RunIsOrdered(capacity, calls);
    var r := Run(capacity, calls);
    WaitsLast(r.link, r.past.flushed);
    FlushesFirst(r.link, r.past.flushed);
  }

  lemma WaitsLast(c: Link, flushed: seq<Letter>)
    requires Ordered(c, flushed)
    ensures var criticals, regulars := Sieve(c.history, true), Sieve(c.history, false);
      |c.heap| <= |criticals| && |c.outbound| <= |regulars| &&
      c.heap == criticals[|criticals| - |c.heap|..] && c.outbound == regulars[|regulars| - |c.outbound|..]
  {
    SuffixOf(Sieve(flushed, true), c.heap);
    SuffixOf(Sieve(flushed, false), c.outbound);
    hide Sieve;
  }

  lemma FlushesFirst(c: Link, flushed: seq<Letter>)
    requires Ordered(c, flushed)
    ensures var k := Lesser(c.capacity, |c.heap|);
      Batch(c) == c.heap[..k] + c.outbound[..Lesser(c.capacity - k, |c.outbound|)]
  {
    hide Batch, Ordered, Flushed;
    BatchTakes(c, flushed);
  }

  lemma SuffixOf(first: seq<Letter>, second: seq<Letter>)
    ensures (first + second)[|first + second| - |second|..] == second
  {
  }
}
