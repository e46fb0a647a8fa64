/** What any calls leave in the event simulator, told by whole batches rather than by the turns of
    its loop. */
module EventHistory {
  import opened Prelude
  import opened Sorting
  import opened EventSimulation

  /** What has been logged, what waits, and what was lost to calls that raised. */
  datatype Told = Told(log: seq<Event>, queue: seq<Event>, lost: seq<Event>)

  /** Events are numbered as they are made. */
  ghost function Count(t: Told): nat {
    |t.log| + |t.queue| + |t.lost|
  }

  ghost function Beneath(p: Priority): Priority {
    match p
    case Critical => High
    case High => Normal
    case Normal => Low
    case Low => Low
  }

  /** The children of an event: one for each affected entity, of the next lower priority. */
  ghost function Brood(e: Event, depth: nat, id: nat): seq<Event> {
    if e.cascade && depth < 10 && !e.priority.Low? then
      seq(|e.affected|, i requires 0 <= i < |e.affected| =>
        Event(id + i, e.kind, e.affected[i], e.affected, Beneath(e.priority), false, Some(e.id)))
    else []
  }

  ghost function Broods(q: seq<Event>, depth: nat, id: nat): seq<Event> {
    if q == [] then [] else
      var kids := Brood(q[0], depth, id);
      kids + Broods(q[1..], depth, id + |kids|)
  }

  /** The event is to cascade below the lowest priority. */
  ghost predicate Raises(e: Event, depth: nat) {
    e.cascade && depth < 10 && e.priority.Low? && e.affected != []
  }

  /** How many events come before the first that raises. */
  ghost function Safe(q: seq<Event>, depth: nat): (k: nat)
    ensures k <= |q|
  {
    if q == [] || Raises(q[0], depth) then 0 else 1 + Safe(q[1..], depth)
  }

  /** A creation puts one event at the end of the queue. A processing sorts the queue and logs it and
      then the children; or, at an event that raises, logs those before it, loses it, and leaves
      those after it and the children queued. The depth is the number of events lost. */
  ghost function ToldAfter(calls: seq<Call>): Told {
    if calls == [] then Told([], [], []) else
      var t := ToldAfter(calls[..|calls| - 1]);
      match calls[|calls| - 1]
      case Create(kind, source, affected, priority, cascade) =>
        t.(queue := t.queue + [Event(Count(t), kind, source, affected, priority, cascade, None)])
      case Process =>
        var q := Sort(t.queue, ByPriority());
        var k := Safe(q, |t.lost|);
        var children := Broods(q[..k], |t.lost|, Count(t));
        if k < |q| then Told(t.log + q[..k], q[k + 1..] + children, t.lost + [q[k]])
        else Told(t.log + q + children, [], t.lost)
  }

  lemma BroodIsKids(e: Event, depth: nat, id: nat)
    ensures Brood(e, depth, id) == KidsOf(e, depth, id)
  {
    var lower := Lower(e.priority);
    assert lower.Some? ==> lower.value == Beneath(e.priority);
  }

  lemma {:induction false} BroodsAreFamily(q: seq<Event>, depth: nat, id: nat)
    ensures Broods(q, depth, id) == Family(q, depth, id)
    decreases |q|
  {
    hide Brood, KidsOf;
    if q != [] {
      BroodIsKids(q[0], depth, id);
      BroodsAreFamily(q[1..], depth, id + |KidsOf(q[0], depth, id)|);
    }
  }

  lemma {:induction false} SafeIsFirstFailing(q: seq<Event>, depth: nat)
    ensures Safe(q, depth) == FirstFailing(q, depth)
  {
    if q != [] {
      SafeIsFirstFailing(q[1..], depth);
    }
  }

  ghost predicate Tells(s: Simulation, t: Told) {
    s.log == t.log && s.queue == t.queue && s.lost == t.lost && s.depth == |t.lost| && |s.made| == Count(t)
  }

  lemma PlacedCounts(s: Simulation)
    requires Placed(s, [])
    ensures |s.made| == |s.log| + |s.queue| + |s.lost|
  {
    assert |multiset(s.made)| == |multiset(s.log) + multiset(s.queue) + multiset(s.lost) + multiset([])|;
  }

  lemma CreateTells(s: Simulation, t: Told, calls: seq<Call>, call: Call)
    requires call.Create? && Tells(s, t) && t == ToldAfter(calls)
    ensures var u := ToldAfter(calls + [call]); var r := Apply(s, call);
      r.log == u.log && r.queue == u.queue && r.lost == u.lost && r.depth == |u.lost|
  {
    assert (calls + [call])[..|calls|] == calls;
  }

  lemma ProcessTells(s: Simulation, t: Told, calls: seq<Call>)
    requires Tells(s, t) && t == ToldAfter(calls)
    ensures var u := ToldAfter(calls + [Process]); var r := Apply(s, Process);
      r.log == u.log && r.queue == u.queue && r.lost == u.lost && r.depth == |u.lost|
  {
    assert (calls + [Process])[..|calls|] == calls;
    var q := Sort(t.queue, ByPriority());
    var k := Safe(q, |t.lost|);
    SafeIsFirstFailing(q, s.depth);
    FailingSorted(s);
    SortIsSorted(s.queue, ByPriority());
    hide Sort, Drained, Family, Broods, FirstFailing, Safe;
    BroodsAreFamily(q[..k], s.depth, |s.made|);
    if WillRaise(s) {
      ProcessingStopsAtFirstFailing(s);
    } else {
      ProcessingLogsSortedThenChildren(s);
      assert q[..k] == q;
    }
  }

  /** After any calls the log, the queue, what was lost and the depth are as told. */
  lemma {:induction false} RunFollowsTheCalls(calls: seq<Call>)
    ensures Tells(Run(calls), ToldAfter(calls))
  {
    hide Apply, Linked, Placed, Run, ToldAfter;
    if calls == [] {
      NothingTold();
    } else {
      var front, call := calls[..|calls| - 1], calls[|calls| - 1];
      assert calls == front + [call];
      RunFollowsTheCalls(front);
      RunAppend(front, call);
      if call.Create? {
        CreateTells(Run(front), ToldAfter(front), front, call);
      } else {
        ProcessTells(Run(front), ToldAfter(front), front);
      }
      RunKeepsEveryEvent(calls);
      PlacedCounts(Run(calls));
    }
  }

  lemma NothingTold()
    ensures Tells(Run([]), ToldAfter([]))
  {
  }
}
