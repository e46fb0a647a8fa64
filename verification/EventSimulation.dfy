/** The event simulator: a queue sorted by priority and drained, while cascading events put one
    event per affected entity at its end. */
module EventSimulation {
  import opened Prelude
  import opened Sorting

  datatype Priority = Critical | High | Normal | Low

  function Rank(p: Priority): int {
    match p
    case Critical => 0
    case High => 1
    case Normal => 2
    case Low => 3
  }

  /** The priority one rank lower; the lowest has none, and asking for it raises. */
  function Lower(p: Priority): (r: Option<Priority>)
    ensures r.Some? ==> Rank(r.value) == Rank(p) + 1
    ensures r.None? <==> p.Low?
  {
    match p
    case Critical => Some(High)
    case High => Some(Normal)
    case Normal => Some(Low)
    case Low => None
  }

  /** What never changes about an event. */
  datatype Event = Event(
    id: nat,
    kind: string,
    source: string,
    affected: seq<string>,
    priority: Priority,
    cascade: bool,
    parent: Option<nat>)

  function ByPriority(): Event -> int {
    (e: Event) => Rank(e.priority)
  }

  const MAX_CASCADE_DEPTH: nat := 10

  /** A simulator, with `made` for every event it ever made, in order, and `lost` for those popped
      by a call that raised. `children[i]` are the children recorded in event i. */
  datatype Simulation = Simulation(
    log: seq<Event>,
    queue: seq<Event>,
    history: map<nat, Event>,
    depth: nat,
    made: seq<Event>,
    children: seq<seq<nat>>,
    lost: seq<Event>)

  const EMPTY := Simulation([], [], map[], 0, [], [], [])

  function Created(s: Simulation, kind: string, source: string, affected: seq<string>, priority: Priority, cascade: bool): Simulation {
    var e := Event(|s.made|, kind, source, affected, priority, cascade, None);
    s.(queue := s.queue + [e], history := s.history[e.id := e], made := s.made + [e], children := s.children + [[]])
  }

  /** One child of `e`, at the end of the queue. */
  function Spawned(s: Simulation, e: Event, entity: string, priority: Priority): Simulation {
    var child := Event(|s.made|, e.kind, entity, e.affected, priority, false, Some(e.id));
    s.(queue := s.queue + [child],
       made := s.made + [child],
       children := (if e.id < |s.children| then s.children[e.id := s.children[e.id] + [child.id]] else s.children) + [[]])
  }

  function SpawnedAll(s: Simulation, e: Event, entities: seq<string>, priority: Priority): Simulation
    decreases |entities|
  {
    if entities == [] then s else SpawnedAll(Spawned(s, e, entities[0], priority), e, entities[1..], priority)
  }

  /** An event that cascades below the lowest priority. */
  predicate Fails(e: Event, depth: nat) {
    e.cascade && depth < MAX_CASCADE_DEPTH && e.priority.Low? && e.affected != []
  }

  /** The depth is left raised when the dispatch raises. */
  function Dispatched(s: Simulation, e: Event): Simulation {
    if !e.cascade || s.depth >= MAX_CASCADE_DEPTH then s
    else
      match Lower(e.priority)
      case Some(p) => SpawnedAll(s, e, e.affected, p)
      case None => if e.affected == [] then s else s.(depth := s.depth + 1)
  }

  datatype Outcome = Outcome(simulation: Simulation, processed: nat, raised: bool)

  /** Events still to be taken off the queue, counting children to come. */
  function Work(queue: seq<Event>): nat {
    if queue == [] then 0
    else 1 + Work(queue[1..]) + if queue[0].cascade then |queue[0].affected| else 0
  }

  lemma {:induction false} WorkOfConcat(q: seq<Event>, r: seq<Event>)
    ensures Work(q + r) == Work(q) + Work(r)
    decreases |q|
  {
    if q == [] {
      assert q + r == r;
    } else {
      assert (q + r)[1..] == q[1..] + r;
      WorkOfConcat(q[1..], r);
    }
  }

  lemma {:induction false} WorkOfSpawned(s: Simulation, e: Event, entities: seq<string>, priority: Priority)
    ensures Work(SpawnedAll(s, e, entities, priority).queue) == Work(s.queue) + |entities|
    decreases |entities|
  {
    if entities != [] {
      var t := Spawned(s, e, entities[0], priority);
      WorkOfConcat(s.queue, [t.made[|s.made|]]);
      WorkOfSpawned(t, e, entities[1..], priority);
    }
  }

  lemma WorkAfterDispatch(s: Simulation)
    requires s.queue != []
    ensures Work(Dispatched(s.(queue := s.queue[1..]), s.queue[0]).queue) < Work(s.queue)
  {
    var e, t := s.queue[0], s.(queue := s.queue[1..]);
    if e.cascade && s.depth < MAX_CASCADE_DEPTH && Lower(e.priority).Some? {
      WorkOfSpawned(t, e, e.affected, Lower(e.priority).value);
    }
  }

  function Drained(s: Simulation, processed: nat): Outcome
    decreases Work(s.queue)
  {
    if s.queue == [] then Outcome(s, processed, false)
    else
      var e := s.queue[0];
      var t := Dispatched(s.(queue := s.queue[1..]), e);
      WorkAfterDispatch(s);
      if Fails(e, s.depth) then Outcome(t.(lost := t.lost + [e]), processed, true)
      else Drained(t.(log := t.log + [e]), processed + 1)
  }

  function Processed(s: Simulation): Outcome {
    Drained(s.(queue := Sort(s.queue, ByPriority())), 0)
  }

  // ----- What a processing does -----

  /** The children of `e` for the given entities, numbered from `id`. */
  ghost function Kids(e: Event, entities: seq<string>, priority: Priority, id: nat): seq<Event> {
    seq(|entities|, i requires 0 <= i < |entities| =>
      Event(id + i, e.kind, entities[i], e.affected, priority, false, Some(e.id)))
  }

  ghost function KidsOf(e: Event, depth: nat, id: nat): seq<Event> {
    if e.cascade && depth < MAX_CASCADE_DEPTH && Lower(e.priority).Some? then Kids(e, e.affected, Lower(e.priority).value, id)
    else []
  }

  /** The children of a sequence of events, in the order of their parents. */
  ghost function Family(q: seq<Event>, depth: nat, id: nat): seq<Event> {
    if q == [] then []
    else KidsOf(q[0], depth, id) + Family(q[1..], depth, id + |KidsOf(q[0], depth, id)|)
  }

  /** The position of the first event that fails, or the length. */
  ghost function FirstFailing(q: seq<Event>, depth: nat): (k: nat)
    ensures k <= |q|
    ensures k < |q| ==> Fails(q[k], depth)
    ensures forall i :: 0 <= i < k ==> !Fails(q[i], depth)
  {
    if q == [] || Fails(q[0], depth) then 0 else 1 + FirstFailing(q[1..], depth)
  }

  lemma KidsUnfold(e: Event, entities: seq<string>, priority: Priority, id: nat)
    requires entities != []
    ensures Kids(e, entities, priority, id) ==
      [Event(id, e.kind, entities[0], e.affected, priority, false, Some(e.id))] + Kids(e, entities[1..], priority, id + 1)
  {
  }

  lemma {:induction false} SpawnedAllAdds(s: Simulation, e: Event, entities: seq<string>, priority: Priority)
    ensures var t, kids := SpawnedAll(s, e, entities, priority), Kids(e, entities, priority, |s.made|);
      t == s.(queue := s.queue + kids, made := s.made + kids, children := t.children)
    decreases |entities|
  {
    var kids := Kids(e, entities, priority, |s.made|);
    if entities == [] {
      assert s.queue + kids == s.queue && s.made + kids == s.made;
    } else {
      var next, rest := Spawned(s, e, entities[0], priority), Kids(e, entities[1..], priority, |s.made| + 1);
      SpawnedAllAdds(next, e, entities[1..], priority);
      KidsUnfold(e, entities, priority, |s.made|);
      hide Kids;
      assert s.queue + [kids[0]] + rest == s.queue + ([kids[0]] + rest);
      assert s.made + [kids[0]] + rest == s.made + ([kids[0]] + rest);
    }
  }

  lemma DispatchAdds(s: Simulation, e: Event)
    ensures var t, kids := Dispatched(s, e), KidsOf(e, s.depth, |s.made|);
      t == s.(queue := s.queue + kids, made := s.made + kids, children := t.children,
              depth := if Fails(e, s.depth) then s.depth + 1 else s.depth)
    ensures Fails(e, s.depth) ==> KidsOf(e, s.depth, |s.made|) == [] && Dispatched(s, e).children == s.children
  {
    if e.cascade && s.depth < MAX_CASCADE_DEPTH && Lower(e.priority).Some? {
      SpawnedAllAdds(s, e, e.affected, Lower(e.priority).value);
    } else {
      assert s.queue + [] == s.queue && s.made + [] == s.made;
    }
  }

  lemma FamilyUnfolds(q: seq<Event>, k: nat, depth: nat, id: nat)
    requires 0 < k <= |q|
    ensures var kids := KidsOf(q[0], depth, id);
      Family(q[..k], depth, id) == kids + Family(q[1..][..k - 1], depth, id + |kids|)
  {
    assert q[..k][1..] == q[1..][..k - 1];
  }

  ghost function Popped(s: Simulation, q: seq<Event>, born: seq<Event>, kids: seq<Event>, mid: seq<seq<nat>>): Simulation
    requires q != []
  {
    s.(queue := q[1..] + (born + kids), made := s.made + kids, log := s.log + [q[0]], children := mid)
  }

  lemma ThroughSteps(s: Simulation, q: seq<Event>, born: seq<Event>, kids: seq<Event>, more: seq<Event>, n: nat,
                     mid: seq<seq<nat>>, children: seq<seq<nat>>)
    requires q != []
    ensures Through(s, q, born, kids + more, n, children) ==
            Through(Popped(s, q, born, kids, mid), q[1..], born + kids, more, n + 1, children)
  {
    assert q == [q[0]] + q[1..];
    assert s.log + [q[0]] + q[1..] + (born + kids) + more == s.log + q + born + (kids + more);
    assert s.made + kids + more == s.made + (kids + more);
  }

  lemma HaltedSteps(s: Simulation, q: seq<Event>, k: nat, born: seq<Event>, kids: seq<Event>, more: seq<Event>, n: nat,
                    mid: seq<seq<nat>>, children: seq<seq<nat>>)
    requires 0 < k < |q|
    ensures Halted(s, q, k, born, kids + more, n, children) ==
            Halted(Popped(s, q, born, kids, mid), q[1..], k - 1, born + kids, more, n + 1, children)
  {
    assert s.log + [q[0]] + q[1..][..k - 1] == s.log + q[..k];
    assert q[1..][k..] == q[k + 1..];
    assert q[k + 1..] + (born + kids) + more == q[k + 1..] + born + (kids + more);
    assert s.made + kids + more == s.made + (kids + more);
  }

  lemma FirstFailingSteps(q: seq<Event>, depth: nat)
    requires q != [] && !Fails(q[0], depth)
    ensures FirstFailing(q, depth) == 1 + FirstFailing(q[1..], depth)
  {
  }

  lemma DrainSteps(s: Simulation, q: seq<Event>, born: seq<Event>, n: nat, mid: seq<seq<nat>>, children: seq<seq<nat>>)
    requires q != [] && !Fails(q[0], s.depth)
    ensures AfterDrain(s, q, born, n, children) ==
            AfterDrain(Popped(s, q, born, KidsOf(q[0], s.depth, |s.made|), mid), q[1..],
                       born + KidsOf(q[0], s.depth, |s.made|), n + 1, children)
  {
    hide Fails, KidsOf, FirstFailing, Family, Through, Halted;
    var kids := KidsOf(q[0], s.depth, |s.made|);
    var k := FirstFailing(q, s.depth);
    FirstFailingSteps(q, s.depth);
    var more := Family(q[1..][..k - 1], s.depth, |s.made + kids|);
    FamilyUnfolds(q, k, s.depth, |s.made|);
    if k < |q| {
      HaltedSteps(s, q, k, born, kids, more, n, mid, children);
    } else {
      ThroughSteps(s, q, born, kids, more, n, mid, children);
    }
  }

  ghost predicate Inert(q: seq<Event>) {
    forall e <- q :: !e.cascade
  }

  lemma {:induction false} InertDrains(s: Simulation, n: nat)
    requires Inert(s.queue)
    ensures Drained(s, n) == Outcome(s.(queue := [], log := s.log + s.queue), n + |s.queue|, false)
    decreases |s.queue|
  {
    if s.queue != [] {
      var e := s.queue[0];
      var next := s.(queue := s.queue[1..], log := s.log + [e]);
      InertDrains(next, n + 1);
      assert s.log + [e] + s.queue[1..] == s.log + s.queue;
    } else {
      assert s.log + s.queue == s.log;
    }
  }

  /** After all events of `q`, then `born`, then the children of `q`. */
  ghost function Through(s: Simulation, q: seq<Event>, born: seq<Event>, kids: seq<Event>, n: nat, children: seq<seq<nat>>): Outcome {
    Outcome(s.(log := s.log + q + born + kids, queue := [], made := s.made + kids, children := children),
            n + |q| + |born| + |kids|, false)
  }

  /** After the first `k` events of `q`, when the next one fails. */
  ghost function Halted(s: Simulation, q: seq<Event>, k: nat, born: seq<Event>, kids: seq<Event>, n: nat, children: seq<seq<nat>>): Outcome
    requires k < |q|
  {
    Outcome(s.(log := s.log + q[..k], queue := q[k + 1..] + born + kids, made := s.made + kids, children := children,
               depth := s.depth + 1, lost := s.lost + [q[k]]),
            n + k, true)
  }

  /** The outcome when the events of `q`, followed by `born`, are drained: either all of them, or
      up to the first that fails. */
  ghost function AfterDrain(s: Simulation, q: seq<Event>, born: seq<Event>, n: nat, children: seq<seq<nat>>): Outcome {
    var k := FirstFailing(q, s.depth);
    var kids := Family(q[..k], s.depth, |s.made|);
    if k == |q| then Through(s, q, born, kids, n, children) else Halted(s, q, k, born, kids, n, children)
  }

  lemma KidsAreInert(born: seq<Event>, e: Event, depth: nat, id: nat)
    requires Inert(born)
    ensures Inert(born + KidsOf(e, depth, id))
  {
  }

  lemma DrainStops(s: Simulation, q: seq<Event>, born: seq<Event>, n: nat)
    requires q != [] && Fails(q[0], s.depth) && s.queue == q + born
    ensures Drained(s, n) == AfterDrain(s, q, born, n, Drained(s, n).simulation.children)
  {
    var e, popped := q[0], s.(queue := s.queue[1..]);
    DispatchAdds(popped, e);
    assert popped.queue == q[1..] + born;
    assert q[..0] == [];
    assert s.log + [] == s.log && q[1..] + born + [] == popped.queue && s.made + [] == s.made;
  }

  lemma DrainGoesOn(s: Simulation, q: seq<Event>, born: seq<Event>, n: nat) returns (next: Simulation)
    requires q != [] && !Fails(q[0], s.depth) && s.queue == q + born
    ensures Drained(s, n) == Drained(next, n + 1)
    ensures next == Popped(s, q, born, KidsOf(q[0], s.depth, |s.made|), next.children)
  {
    hide Dispatched;
    var e, popped := q[0], s.(queue := s.queue[1..]);
    var kids := KidsOf(e, s.depth, |s.made|);
    DispatchAdds(popped, e);
    assert popped.queue == q[1..] + born;
    assert q[1..] + born + kids == q[1..] + (born + kids);
    next := Dispatched(popped, e).(log := s.log + [e]);
  }

  lemma DrainEnds(s: Simulation, born: seq<Event>, n: nat)
    requires s.queue == [] + born && Inert(born)
    ensures Drained(s, n) == AfterDrain(s, [], born, n, Drained(s, n).simulation.children)
  {
    hide Drained;
    assert s.queue == born;
    InertDrains(s, n);
    assert s.log + [] + born + [] == s.log + born && s.made + [] == s.made;
  }

  lemma {:induction false} QueueDrains(s: Simulation, q: seq<Event>, born: seq<Event>, n: nat)
    requires s.queue == q + born && Inert(born)
    ensures Drained(s, n) == AfterDrain(s, q, born, n, Drained(s, n).simulation.children)
    decreases |q|
  {
    hide Inert, Fails, KidsOf, AfterDrain, Drained;
    if q == [] {
      DrainEnds(s, born, n);
    } else if Fails(q[0], s.depth) {
      DrainStops(s, q, born, n);
    } else {
      var next := DrainGoesOn(s, q, born, n);
      KidsAreInert(born, q[0], s.depth, |s.made|);
      QueueDrains(next, q[1..], born + KidsOf(q[0], s.depth, |s.made|), n + 1);
      DrainSteps(s, q, born, n, next.children, Drained(s, n).simulation.children);
    }
  }

  lemma {:induction false} WorkOfInsert(q: seq<Event>, e: Event)
    ensures Work(Insert(q, e, ByPriority())) == Work(q) + Work([e])
  {
    hide Work;
    if q == [] || Rank(q[|q| - 1].priority) <= Rank(e.priority) {
      WorkOfConcat(q, [e]);
    } else {
      var n := |q| - 1;
      WorkOfInsert(q[..n], e);
      WorkOfConcat(Insert(q[..n], e, ByPriority()), [q[n]]);
      WorkOfConcat(q[..n], [q[n]]);
      assert q == q[..n] + [q[n]];
    }
  }

  lemma {:induction false} WorkOfSort(q: seq<Event>)
    ensures Work(Sort(q, ByPriority())) == Work(q)
  {
    if q != [] {
      var n := |q| - 1;
      WorkOfSort(q[..n]);
      WorkOfInsert(Sort(q[..n], ByPriority()), q[n]);
      WorkOfConcat(q[..n], [q[n]]);
      assert q == q[..n] + [q[n]];
    }
  }

  lemma KidsSize(e: Event, depth: nat, id: nat)
    requires !Fails(e, depth)
    ensures |KidsOf(e, depth, id)| == if e.cascade && depth < MAX_CASCADE_DEPTH then |e.affected| else 0
  {
  }

  lemma {:induction false} FamilySize(q: seq<Event>, depth: nat, id: nat)
    requires forall e <- q :: !Fails(e, depth)
    ensures |q| + |Family(q, depth, id)| == if depth < MAX_CASCADE_DEPTH then Work(q) else |q|
    decreases |q|
  {
    hide Fails, KidsOf, Work, Family;
    FamilySteps(q, depth, id);
    if q != [] {
      assert q[0] in q && forall e <- q[1..] :: e in q;
      KidsSize(q[0], depth, id);
      FamilySize(q[1..], depth, id + |KidsOf(q[0], depth, id)|);
    }
  }

  lemma FamilySteps(q: seq<Event>, depth: nat, id: nat)
    ensures if q == [] then |Family(q, depth, id)| == Work(q) == 0
            else
              var kids := KidsOf(q[0], depth, id);
              |Family(q, depth, id)| == |kids| + |Family(q[1..], depth, id + |kids|)| &&
              Work(q) == 1 + (if q[0].cascade then |q[0].affected| else 0) + Work(q[1..])
  {
    hide KidsOf;
  }

  ghost predicate WillRaise(s: Simulation) {
    exists e <- s.queue :: Fails(e, s.depth)
  }

  lemma FailingSorted(s: Simulation)
    ensures FirstFailing(Sort(s.queue, ByPriority()), s.depth) < |s.queue| <==> WillRaise(s)
  {
    hide Sort, Fails;
    var q := Sort(s.queue, ByPriority());
    SortIsSorted(s.queue, ByPriority());
    SortMembers(s.queue, ByPriority());
    var k := FirstFailing(q, s.depth);
    if k < |q| {
      assert q[k] in s.queue;
    }
    assert forall e <- s.queue :: e in q;
  }

  /** Processing raises exactly when a queued event cascades below the lowest priority. Otherwise
      it logs the queue, stably sorted, and then the children in the order of their parents. */
  lemma ProcessingLogsSortedThenChildren(s: Simulation)
    ensures Processed(s).raised <==> WillRaise(s)
    ensures !WillRaise(s) ==>
      var q := Sort(s.queue, ByPriority());
      var out := Processed(s);
      out.simulation.log == s.log + q + Family(q, s.depth, |s.made|) &&
      out.simulation.queue == [] && out.simulation.depth == s.depth && out.simulation.lost == s.lost &&
      out.processed == if s.depth < MAX_CASCADE_DEPTH then Work(s.queue) else |s.queue|
  {
    var q := Sort(s.queue, ByPriority());
    FailingSorted(s);
    SortIsSorted(s.queue, ByPriority());
    assert q == q + [];
    QueueDrains(s.(queue := q), q, [], 0);
    if !WillRaise(s) {
      assert q[..|q|] == q && s.log + q + [] == s.log + q;
      FamilySize(q, s.depth, |s.made|);
      WorkOfSort(s.queue);
    }
  }

  /** When it raises, the event at fault is lost, the events before it are logged, and those after
      it stay queued, followed by the children of those before. */
  lemma ProcessingStopsAtFirstFailing(s: Simulation)
    requires WillRaise(s)
    ensures var q := Sort(s.queue, ByPriority());
      var k := FirstFailing(q, s.depth);
      var out := Processed(s);
      k < |q| && out.processed == k && out.simulation.log == s.log + q[..k] &&
      out.simulation.queue == q[k + 1..] + Family(q[..k], s.depth, |s.made|) &&
      out.simulation.lost == s.lost + [q[k]] && out.simulation.depth == s.depth + 1
  {
    var q := Sort(s.queue, ByPriority());
    FailingSorted(s);
    SortIsSorted(s.queue, ByPriority());
    assert q == q + [];
    QueueDrains(s.(queue := q), q, [], 0);
    var k := FirstFailing(q, s.depth);
    assert q[k + 1..] + [] == q[k + 1..];
  }

  // ----- Runs -----

  datatype Call =
    | Create(kind: string, source: string, affected: seq<string>, priority: Priority, cascade: bool)
    | Process

  function Apply(s: Simulation, call: Call): Simulation {
    match call
    case Create(kind, source, affected, priority, cascade) => Created(s, kind, source, affected, priority, cascade)
    case Process => Processed(s).simulation
  }

  function Run(calls: seq<Call>): Simulation {
    if calls == [] then EMPTY else Apply(Run(calls[..|calls| - 1]), calls[|calls| - 1])
  }

  /** The cascade depth counts the calls that raised; after ten of them nothing cascades again. */
  lemma {:induction false} DepthCountsFailures(calls: seq<Call>)
    ensures var s := Run(calls); s.depth == |s.lost| <= MAX_CASCADE_DEPTH
  {
    if calls != [] {
      var s := Run(calls[..|calls| - 1]);
      DepthCountsFailures(calls[..|calls| - 1]);
      if WillRaise(s) {
        ProcessingStopsAtFirstFailing(s);
      } else {
        ProcessingLogsSortedThenChildren(s);
      }
    }
  }

  // ----- Parents and children -----

  /** The identifiers of the events made with parent `p`, in order. */
  ghost function Offspring(made: seq<Event>, p: nat): seq<nat> {
    if made == [] then []
    else
      var last := made[|made| - 1];
      if last.parent == Some(p) then Offspring(made[..|made| - 1], p) + [last.id] else Offspring(made[..|made| - 1], p)
  }

  /** Identifiers number the events; the children recorded in an event are those that name it as
      their parent; a child was made after its parent, cascades no further and is not in the
      history. */
  ghost predicate Linked(s: Simulation) {
    |s.children| == |s.made| &&
    (forall i :: 0 <= i < |s.made| ==> s.made[i].id == i) &&
    (forall i :: 0 <= i < |s.made| ==> s.children[i] == Offspring(s.made, i)) &&
    (forall i :: 0 <= i < |s.made| && s.made[i].parent.Some? ==> s.made[i].parent.value < i && !s.made[i].cascade) &&
    (forall i: nat :: i in s.history <==> i < |s.made| && s.made[i].parent.None?) &&
    (forall i <- s.history :: s.history[i] == s.made[i])
  }

  /** Every event made is logged, queued, lost or, once, among `hand`. */
  ghost predicate Placed(s: Simulation, hand: seq<Event>) {
    multiset(s.made) == multiset(s.log) + multiset(s.queue) + multiset(s.lost) + multiset(hand)
  }

  lemma OffspringAppend(made: seq<Event>, e: Event, p: nat)
    ensures Offspring(made + [e], p) == if e.parent == Some(p) then Offspring(made, p) + [e.id] else Offspring(made, p)
  {
    assert (made + [e])[..|made|] == made;
  }

  lemma {:induction false} NoOffspring(made: seq<Event>, p: nat)
    requires forall e <- made :: e.parent != Some(p)
    ensures Offspring(made, p) == []
  {
    if made != [] {
      NoOffspring(made[..|made| - 1], p);
    }
  }

  lemma SpawnKeepsLinked(s: Simulation, e: Event, entity: string, priority: Priority)
    requires Linked(s) && e.id < |s.made|
    ensures Linked(Spawned(s, e, entity, priority))
  {
    var t := Spawned(s, e, entity, priority);
    var child := t.made[|s.made|];
    forall i | 0 <= i < |t.made| ensures t.children[i] == Offspring(t.made, i) {
      OffspringAppend(s.made, child, i);
      if i == |s.made| {
        NoOffspring(s.made, i);
      }
    }
  }

  lemma CreateKeepsLinked(s: Simulation, kind: string, source: string, affected: seq<string>, priority: Priority, cascade: bool)
    requires Linked(s)
    ensures Linked(Created(s, kind, source, affected, priority, cascade))
  {
    var t := Created(s, kind, source, affected, priority, cascade);
    var e := t.made[|s.made|];
    forall i | 0 <= i < |t.made| ensures t.children[i] == Offspring(t.made, i) {
      OffspringAppend(s.made, e, i);
      if i == |s.made| {
        NoOffspring(s.made, i);
      }
    }
  }

  lemma CreateKeepsPlaced(s: Simulation, kind: string, source: string, affected: seq<string>, priority: Priority, cascade: bool)
    requires Placed(s, [])
    ensures Placed(Created(s, kind, source, affected, priority, cascade), [])
  {
  }

  lemma {:induction false} SpawnAllKeepsLinked(s: Simulation, e: Event, entities: seq<string>, priority: Priority)
    requires Linked(s) && e.id < |s.made| && Placed(s, [e])
    ensures var t := SpawnedAll(s, e, entities, priority); Linked(t) && Placed(t, [e])
    decreases |entities|
  {
    hide Linked;
    if entities != [] {
      SpawnKeepsLinked(s, e, entities[0], priority);
      SpawnAllKeepsLinked(Spawned(s, e, entities[0], priority), e, entities[1..], priority);
    }
  }

  lemma DispatchKeepsLinked(s: Simulation, e: Event)
    requires Linked(s) && Placed(s, [e])
    ensures Linked(Dispatched(s, e)) && Placed(Dispatched(s, e), [e])
  {
    assert e in multiset(s.made);
    if e.cascade && s.depth < MAX_CASCADE_DEPTH && Lower(e.priority).Some? {
      SpawnAllKeepsLinked(s, e, e.affected, Lower(e.priority).value);
    }
  }

  lemma LinkedLooksAtMade(s: Simulation, t: Simulation)
    requires Linked(s) && s.made == t.made && s.children == t.children && s.history == t.history
    ensures Linked(t)
  {
  }

  lemma {:induction false} DrainKeepsLinked(s: Simulation, n: nat)
    requires Linked(s) && Placed(s, [])
    ensures var t := Drained(s, n).simulation; Linked(t) && Placed(t, [])
    decreases Work(s.queue)
  {
    hide Linked, Dispatched;
    if s.queue != [] {
      var e, popped := s.queue[0], s.(queue := s.queue[1..]);
      assert s.queue == [e] + s.queue[1..];
      LinkedLooksAtMade(s, popped);
      DispatchKeepsLinked(popped, e);
      var t := Dispatched(popped, e);
      if Fails(e, s.depth) {
        LinkedLooksAtMade(t, t.(lost := t.lost + [e]));
      } else {
        var next := t.(log := t.log + [e]);
        LinkedLooksAtMade(t, next);
        WorkAfterDispatch(s);
        DrainKeepsLinked(next, n + 1);
      }
    }
  }

  /** Over any calls, every event ever made is in one of the log, the queue and the lost ones, and
      parent and child references mirror each other. */
  lemma {:induction false} RunKeepsEveryEvent(calls: seq<Call>)
    ensures var s := Run(calls); Linked(s) && Placed(s, [])
  {
    hide Linked;
    if calls == [] {
      EmptyIsLinked();
    } else {
      var s, call := Run(calls[..|calls| - 1]), calls[|calls| - 1];
      RunKeepsEveryEvent(calls[..|calls| - 1]);
      match call
      case Create(kind, source, affected, priority, cascade) =>
        CreateKeepsLinked(s, kind, source, affected, priority, cascade);
        CreateKeepsPlaced(s, kind, source, affected, priority, cascade);
      case Process =>
        var t := s.(queue := Sort(s.queue, ByPriority()));
        SortIsSorted(s.queue, ByPriority());
        LinkedLooksAtMade(s, t);
        DrainKeepsLinked(t, 0);
    }
  }

  lemma EmptyIsLinked()
    ensures Linked(EMPTY) && Placed(EMPTY, [])
  {
  }

  // ----- Causes -----

  /** The walk from an event to its causes through the history, earliest first. */
  function Chain(history: map<nat, Event>, current: Option<nat>, chain: seq<Event>): seq<Event>
    requires forall id <- history :: history[id].parent.Some? ==> history[id].parent.value < id
    decreases current.Some?, if current.Some? then current.value else 0
  {
    if current.None? || current.value !in history then chain
    else
      var e := history[current.value];
      Chain(history, e.parent, [e] + chain)
  }

  /** The walk never gets from an effect to its cause: for an event made by a call it is that event
      alone, and for a child, which the history does not hold, it is empty. */
  lemma ChainShowsNoCause(calls: seq<Call>, id: nat)
    ensures var s := Run(calls);
      (forall i <- s.history :: s.history[i].parent.None?) &&
      Chain(s.history, Some(id), []) == if id < |s.made| && s.made[id].parent.None? then [s.made[id]] else []
  {
    RunKeepsEveryEvent(calls);
  }

  // ----- Runs that raise, stop cascading and hide a cause -----

  lemma RunAppend(calls: seq<Call>, call: Call)
    ensures Run(calls + [call]) == Apply(Run(calls), call)
  {
    assert (calls + [call])[..|calls|] == calls;
  }

  lemma SortOfOne(e: Event)
    ensures Sort([e], ByPriority()) == [e]
  {
    SortOfSorted([e], ByPriority());
  }

  /** One cascading event of the lowest priority with an affected entity makes the next call raise. */
  lemma LowCascadeRaises(kind: string, source: string, entity: string)
    ensures WillRaise(Run([Create(kind, source, [entity], Low, true)]))
  {
    RunAppend([], Create(kind, source, [entity], Low, true));
    var s := Created(EMPTY, kind, source, [entity], Low, true);
    assert s.queue[0] in s.queue && Fails(s.queue[0], s.depth);
  }

  function Repeated(n: nat, kind: string, source: string, entity: string): seq<Call> {
    if n == 0 then [] else Repeated(n - 1, kind, source, entity) + [Create(kind, source, [entity], Low, true)] + [Process]
  }

  lemma FailingCreation(s: Simulation, kind: string, source: string, entity: string)
    requires s.queue == [] && s.depth < MAX_CASCADE_DEPTH
    ensures var out := Processed(Created(s, kind, source, [entity], Low, true));
      out.raised && out.simulation.queue == [] && out.simulation.depth == s.depth + 1
  {
    var t := Created(s, kind, source, [entity], Low, true);
    var e := t.queue[0];
    assert t.queue == [e] && Fails(e, t.depth);
    SortOfOne(e);
    ProcessingStopsAtFirstFailing(t);
    ProcessingLogsSortedThenChildren(t);
    assert [e][..0] == [] && [e][1..] == [];
  }

  /** Each repetition raises once more, up to the greatest depth. */
  lemma {:induction false} RepetitionsRaise(n: nat, kind: string, source: string, entity: string)
    requires n <= MAX_CASCADE_DEPTH
    ensures var s := Run(Repeated(n, kind, source, entity)); s.depth == n && s.queue == []
  {
    if n > 0 {
      var calls := Repeated(n - 1, kind, source, entity);
      var create := Create(kind, source, [entity], Low, true);
      RepetitionsRaise(n - 1, kind, source, entity);
      RunAppend(calls, create);
      RunAppend(calls + [create], Process);
      FailingCreation(Run(calls), kind, source, entity);
    }
  }

  lemma AtDepthNothingCascades(s: Simulation, e: Event)
    requires s.queue == [e] && s.depth >= MAX_CASCADE_DEPTH
    ensures Processed(s) == Outcome(s.(queue := [], log := s.log + [e]), 1, false)
  {
    SortOfOne(e);
    var next := s.(queue := [e][1..], log := s.log + [e]);
    assert Drained(next, 1) == Outcome(next, 1, false);
  }

  /** After ten of them a cascading event with an affected entity is logged without children. */
  lemma CascadesEnd(kind: string, source: string, entity: string)
    ensures var s := Run(Repeated(MAX_CASCADE_DEPTH, kind, source, entity));
      var t := Run(Repeated(MAX_CASCADE_DEPTH, kind, source, entity) + [Create(kind, source, [entity], High, true)] + [Process]);
      var e := Event(|s.made|, kind, source, [entity], High, true, None);
      s.depth == MAX_CASCADE_DEPTH && t.log == s.log + [e] && t.queue == [] &&
      |t.children| == |s.children| + 1 && t.children[|s.children|] == []
  {
    hide Run, Processed;
    var calls, create := Repeated(MAX_CASCADE_DEPTH, kind, source, entity), Create(kind, source, [entity], High, true);
    RepetitionsRaise(MAX_CASCADE_DEPTH, kind, source, entity);
    RunAppend(calls, create);
    RunAppend(calls + [create], Process);
    var s := Run(calls);
    var t := Created(s, kind, source, [entity], High, true);
    assert t.queue == [t.queue[0]];
    AtDepthNothingCascades(t, t.queue[0]);
  }

  lemma OneChild(s: Simulation, e: Event, entity: string)
    requires s.queue == [e] && e.cascade && e.affected == [entity] && e.priority.High? && s.depth < MAX_CASCADE_DEPTH
    ensures Processed(s).simulation.made == s.made + [Event(|s.made|, e.kind, entity, [entity], Normal, false, Some(e.id))]
  {
    hide SpawnedAll, Drained, Dispatched;
    SortOfOne(e);
    assert [e] == [e] + [];
    assert FirstFailing([e], s.depth) == 1 by {
      assert FirstFailing([e][1..], s.depth) == 0;
    }
    QueueDrains(s, [e], [], 0);
    assert [e][..1] == [e] && [e][1..] == [];
    var kids := KidsOf(e, s.depth, |s.made|);
    assert kids == [Event(|s.made|, e.kind, entity, [entity], Normal, false, Some(e.id))];
    assert Family([e], s.depth, |s.made|) == kids + Family([], s.depth, |s.made| + 1) == kids;
  }

  /** A child whose parent is known is found to have no causes. */
  lemma ChildHasHiddenCause(kind: string, source: string, entity: string)
    ensures var s := Run([Create(kind, source, [entity], High, true)] + [Process]);
      |s.made| == 2 && s.made[1].parent == Some(0) && s.made[1].source == entity &&
      (forall id <- s.history :: s.history[id].parent.None?) && Chain(s.history, Some(1), []) == []
  {
    hide Run, Processed;
    var create := Create(kind, source, [entity], High, true);
    RunAppend([], create);
    RunAppend([create], Process);
    EmptyRun();
    assert [] + [create] == [create];
    var s := Created(EMPTY, kind, source, [entity], High, true);
    assert s.queue == [s.queue[0]];
    OneChild(s, s.queue[0], entity);
    ChainShowsNoCause([create] + [Process], 1);
  }

  lemma EmptyRun()
    ensures Run([]) == EMPTY
  {
  }

  // ----- The simulator -----

  class SimulationEvent {
    const event: Event
    var childEvents: seq<nat>

    constructor (event: Event)
      ensures this.event == event && childEvents == []
    {
      this.event, childEvents := event, [];
    }
  }

  function Viewed(): SimulationEvent -> Event {
    (m: SimulationEvent) => m.event
  }

  function ByOwnPriority(): SimulationEvent -> int {
    (m: SimulationEvent) => Rank(m.event.priority)
  }

  function Events(s: seq<SimulationEvent>): (events: seq<Event>)
    ensures |events| == |s|
  {
    Map(s, Viewed())
  }

  lemma EventsAppend(s: seq<SimulationEvent>, m: SimulationEvent)
    ensures Events(s + [m]) == Events(s) + [m.event]
  {
    hide Map;
  }

  lemma EventsTail(s: seq<SimulationEvent>)
    requires s != []
    ensures Events(s[1..]) == Events(s)[1..] && Events(s)[0] == s[0].event
  {
    hide Map;
  }

  lemma EventsSorted(s: seq<SimulationEvent>)
    ensures Events(Sort(s, ByOwnPriority())) == Sort(Events(s), ByPriority())
    ensures forall m :: m in Sort(s, ByOwnPriority()) <==> m in s
  {
    SortMapped(s, Viewed(), ByOwnPriority(), ByPriority());
    SortMembers(s, ByOwnPriority());
  }

  function Filed(history: map<nat, SimulationEvent>): map<nat, Event> {
    map id | id in history :: history[id].event
  }

  lemma FiledPut(history: map<nat, SimulationEvent>, id: nat, m: SimulationEvent)
    ensures Filed(history[id := m]) == Filed(history)[id := m.event]
  {
  }

  ghost function ChildLists(made: seq<SimulationEvent>): (lists: seq<seq<nat>>)
    reads made
    ensures |lists| == |made|
    ensures forall i :: 0 <= i < |made| ==> lists[i] == made[i].childEvents
  {
    seq(|made|, i requires 0 <= i < |made| reads made => made[i].childEvents)
  }

  class EventSimulator {
    var eventLog: seq<SimulationEvent>
    var eventQueue: seq<SimulationEvent>
    var eventHistory: map<nat, SimulationEvent>
    var cascadeDepth: nat
    /** How many identifiers have been drawn. */
    var issued: nat
    ghost var made: seq<SimulationEvent>
    ghost var lost: seq<SimulationEvent>

    ghost predicate Valid()
      reads this
    {
      issued == |made| &&
      (forall i :: 0 <= i < |made| ==> made[i].event.id == i) &&
      (forall m <- eventQueue :: m in made)
    }

    ghost function View(): Simulation
      reads this, made
    {
      Simulation(Events(eventLog), Events(eventQueue), Filed(eventHistory), cascadeDepth, Events(made), ChildLists(made), Events(lost))
    }

    constructor ()
      ensures Valid() && View() == EMPTY && made == []
    {
      eventLog, eventQueue, eventHistory, cascadeDepth, issued := [], [], map[], 0, 0;
      made, lost := [], [];
      new;
      assert Filed(map[]) == map[] && ChildLists([]) == [];
    }

    method CreateEvent(kind: string, source: string, affected: seq<string>, priority: Priority, cascade: bool) returns (id: nat)
      requires Valid()
      modifies this
      ensures Valid() && forall i :: 0 <= i < |made| ==> made[i] in old(made) || fresh(made[i])
      ensures id == |old(View()).made|
      ensures View() == Created(old(View()), kind, source, affected, priority, cascade)
    {
      hide Events, Filed;
      var event := new SimulationEvent(Event(issued, kind, source, affected, priority, cascade, None));
      EventsAppend(eventQueue, event);
      EventsAppend(made, event);
      FiledPut(eventHistory, issued, event);
      eventQueue := eventQueue + [event];
      eventHistory := eventHistory[issued := event];
      made := made + [event];
      id := issued;
      issued := issued + 1;
      assert ChildLists(made) == old(ChildLists(made)) + [[]];
    }

    method RecordChild(event: SimulationEvent, id: nat)
      requires Valid() && event in made
      modifies event
      ensures ChildLists(made) == old(ChildLists(made)[event.event.id := ChildLists(made)[event.event.id] + [id]])
    {
      event.childEvents := event.childEvents + [id];
    }

    method Enqueue(child: SimulationEvent)
      requires Valid() && child.event.id == issued && child.childEvents == []
      modifies this`eventQueue, this`issued, this`made
      ensures Valid() && made == old(made) + [child]
      ensures View() == old(View()).(queue := old(View()).queue + [child.event], made := old(View()).made + [child.event],
                                     children := old(View()).children + [[]])
    {
      hide Events, Filed;
      EventsAppend(eventQueue, child);
      EventsAppend(made, child);
      eventQueue := eventQueue + [child];
      made := made + [child];
      issued := issued + 1;
      assert ChildLists(made) == old(ChildLists(made)) + [[]];
    }

    /** One turn of the loop over affected entities. */
    method Spawn(event: SimulationEvent, entity: string, priority: Priority)
      requires Valid() && event in made
      modifies this`eventQueue, this`issued, this`made, event
      ensures Valid() && |made| > 0 && made[..|made| - 1] == old(made) && fresh(made[|made| - 1])
      ensures View() == Spawned(old(View()), event.event, entity, priority)
    {
      hide Events, Filed, ChildLists;
      var child := new SimulationEvent(Event(issued, event.event.kind, entity, event.event.affected, priority, false, Some(event.event.id)));
      RecordChild(event, issued);
      Enqueue(child);
    }

    /** Subscribers are inert; the rest of a dispatch is the cascade. */
    method DispatchEvent(event: SimulationEvent) returns (raised: bool)
      requires Valid() && event in made
      modifies this`eventQueue, this`issued, this`made, this`cascadeDepth, event
      ensures Valid()
      ensures View() == Dispatched(old(View()), event.event)
      ensures raised == Fails(event.event, old(cascadeDepth))
      ensures forall i :: 0 <= i < |made| ==> made[i] in old(made) || fresh(made[i])
      ensures forall m <- old(made) :: m in made
    {
      ghost var start, s := View(), View();
      DepthIsViewed();
      hide Events, Filed, ChildLists, Spawned, View, Valid;
      if !event.event.cascade || cascadeDepth >= MAX_CASCADE_DEPTH {
        return false;
      }
      SetDepth(cascadeDepth + 1);
      s := s.(depth := start.depth + 1);
      var entities := event.event.affected;
      var i := 0;
      while i < |entities|
        invariant i <= |entities| && Valid() && View() == s && s.depth == cascadeDepth == start.depth + 1
        invariant forall i :: 0 <= i < |made| ==> made[i] in old(made) || fresh(made[i])
        invariant forall m <- old(made) :: m in made
        invariant i == 0 ==> s == start.(depth := start.depth + 1)
        invariant Lower(event.event.priority).Some? ==>
          var p := Lower(event.event.priority).value;
          SpawnedAll(s.(depth := start.depth), event.event, entities[i..], p) == SpawnedAll(start, event.event, entities, p)
        invariant i > 0 ==> Lower(event.event.priority).Some?
      {
        var lower := Lower(event.event.priority);
        if lower.None? {
          return true;
        }
        SpawnIgnoresDepth(s, event.event, entities[i], lower.value, start.depth);
        assert entities[i..][1..] == entities[i + 1..];
        Spawn(event, entities[i], lower.value);
        s := Spawned(s, event.event, entities[i], lower.value);
        i := i + 1;
      }
      SetDepth(cascadeDepth - 1);
      return false;
    }

    lemma DepthIsViewed()
      ensures View().depth == cascadeDepth
    {
    }

    method SetDepth(depth: nat)
      requires Valid()
      modifies this`cascadeDepth
      ensures Valid() && cascadeDepth == depth && View() == old(View()).(depth := depth)
    {
      cascadeDepth := depth;
    }

    /** One turn of the loop over the queue. */
    method Turn(processed: nat) returns (raised: bool)
      requires Valid() && eventQueue != []
      modifies this, eventQueue[0]
      ensures Valid()
      ensures raised ==> Outcome(View(), processed, true) == Drained(old(View()), processed)
      ensures !raised ==> Drained(View(), processed + 1) == Drained(old(View()), processed)
      ensures Work(View().queue) < Work(old(View()).queue)
      ensures forall i :: 0 <= i < |made| ==> made[i] in old(made) || fresh(made[i])
    {
      hide Events, Filed, ChildLists, Dispatched, Fails, Work;
      ghost var s := View();
      var event := eventQueue[0];
      EventsTail(eventQueue);
      WorkAfterDispatch(s);
      eventQueue := eventQueue[1..];
      assert View() == s.(queue := s.queue[1..]);
      raised := DispatchEvent(event);
      EventsAppend(lost, event);
      EventsAppend(eventLog, event);
      if raised {
        lost := lost + [event];
      } else {
        eventLog := eventLog + [event];
      }
    }

    /** Drains the queue; what is raised comes out of the call and ends it. */
    method ProcessEvents() returns (processed: nat, raised: bool)
      requires Valid()
      modifies this, made
      ensures Valid()
      ensures Outcome(View(), processed, raised) == Processed(old(View()))
      ensures forall i :: 0 <= i < |made| ==> made[i] in old(made) || fresh(made[i])
    {
      hide Events, Filed, ChildLists, Dispatched, Fails, Work;
      processed := 0;
      EventsSorted(eventQueue);
      eventQueue := Sort(eventQueue, ByOwnPriority());
      while eventQueue != []
        invariant Valid()
        invariant forall i :: 0 <= i < |made| ==> made[i] in old(made) || fresh(made[i])
        invariant Drained(View(), processed) == Processed(old(View()))
        decreases Work(View().queue)
      {
        var first := eventQueue[0];
        assert first in made;
        assert first in old(made) || fresh(first);
        raised := Turn(processed);
        if raised {
          return;
        }
        processed := processed + 1;
      }
      raised := false;
    }

    method GetEventCausalChain(id: nat) returns (chain: seq<SimulationEvent>)
      requires forall i <- eventHistory :: eventHistory[i].event.parent.Some? ==> eventHistory[i].event.parent.value < i
      ensures Events(chain) == Chain(Filed(eventHistory), Some(id), [])
    {
      hide Events;
      chain := [];
      var current := Some(id);
      while current.Some? && current.value in eventHistory
        invariant Chain(Filed(eventHistory), current, Events(chain)) == Chain(Filed(eventHistory), Some(id), [])
        decreases current.Some?, if current.Some? then current.value else 0
      {
        var event := eventHistory[current.value];
        EventsPrepend(event, chain);
        chain := [event] + chain;
        current := event.event.parent;
      }
    }
  }

  lemma EventsPrepend(m: SimulationEvent, s: seq<SimulationEvent>)
    ensures Events([m] + s) == [m.event] + Events(s)
  {
    hide Map;
  }

  lemma SpawnIgnoresDepth(s: Simulation, e: Event, entity: string, priority: Priority, depth: nat)
    ensures Spawned(s.(depth := depth), e, entity, priority) == Spawned(s, e, entity, priority).(depth := depth)
    ensures Spawned(s, e, entity, priority).depth == s.depth
  {
  }
}