/** What any history of calls leaves in the mesh, read off the calls alone: which edges there are,
    whether each is healthy, in what order they stand, and when the routes are those edges'. */
module MeshHistory {
  import opened Prelude
  import opened MeshRouting
  import opened MeshCoordinator

  ghost const UNCONNECTED := Mesh([], None, map[])

  // ----- The calls that name an edge -----

  ghost predicate Joins(op: Op, n: string) {
    op.Connect? && EdgeId(op.source, op.destination) == n
  }

  ghost predicate Drops(op: Op, n: string) {
    op.Disconnect? && EdgeId(op.source, op.destination) == n
  }

  ghost predicate Marks(op: Op, n: string) {
    (op.MarkHealthy? || op.MarkUnhealthy?) && EdgeId(op.source, op.destination) == n
  }

  ghost function JoinsOrDrops(n: string): Op -> bool {
    op => Joins(op, n) || Drops(op, n)
  }

  ghost function MarksName(n: string): Op -> bool {
    op => Marks(op, n)
  }

  /** The edge under a name: there is one when the last call that connects or disconnects the name
      connects it; it has that call's fields, and is healthy unless marked otherwise since. */
  ghost function EdgeOf(ops: seq<Op>, n: string): Option<EdgeRecord> {
    var i, j := LastIndex(ops, JoinsOrDrops(n)), LastIndex(ops, MarksName(n));
    if i < 0 || ops[i].Disconnect? then None
    else Some(EdgeRecord(ops[i].source, ops[i].destination, ops[i].capacity, ops[i].latencyMs, j < i || ops[j].MarkHealthy?))
  }

  ghost predicate Holds(edges: seq<Entry<string, EdgeRecord>>, n: string, r: Option<EdgeRecord>) {
    if r.Some? then Entry(n, r.value) in edges else forall e <- edges :: e.key != n
  }

  // ----- One call -----

  lemma RunAppends(ops: seq<Op>, op: Op)
    ensures Run(UNCONNECTED, ops + [op]) == Apply(Run(UNCONNECTED, ops), op)
  {
    hide Apply;
    RunSplits(UNCONNECTED, ops, [op]);
    var m := Run(UNCONNECTED, ops);
    assert [op][1..] == [] && Run(m, [op]) == Run(Apply(m, op), []);
  }

  lemma EdgeOfAppends(ops: seq<Op>, op: Op, n: string)
    ensures EdgeOf(ops + [op], n) ==
      if Joins(op, n) then Some(EdgeRecord(op.source, op.destination, op.capacity, op.latencyMs, true))
      else if Drops(op, n) then None
      else if Marks(op, n) && EdgeOf(ops, n).Some? then Some(EdgeOf(ops, n).value.(healthy := op.MarkHealthy?))
      else EdgeOf(ops, n)
  {
    hide LastIndex, EdgeId;
    LastIndexAppends(ops, op, JoinsOrDrops(n));
    LastIndexAppends(ops, op, MarksName(n));
  }

  lemma MarkedMembers(edges: seq<Entry<string, EdgeRecord>>, n: string, healthy: bool)
    requires UniqueKeys(edges)
    ensures UniqueKeys(Marked(edges, n, healthy))
    ensures forall e :: e in Marked(edges, n, healthy) <==>
      (e in edges && e.key != n) || (e.key == n && exists f <- edges :: f.key == n && e.value == f.value.(healthy := healthy))
  {
    var i := Position(edges, n);
    if i >= 0 {
      var r := edges[i].value.(healthy := healthy);
      assert Marked(edges, n, healthy) == Put(edges, n, r);
      PutMembers(edges, n, r);
      hide Position, Put;
      assert edges[i] in edges;
    } else {
      hide Position;
      assert forall e <- edges :: e.key != n;
    }
  }

  lemma ApplyHolds(m: Mesh, op: Op, n: string, r: Option<EdgeRecord>)
    requires UniqueKeys(m.edges) && Holds(m.edges, n, r)
    ensures UniqueKeys(Apply(m, op).edges)
    ensures Holds(Apply(m, op).edges, n,
      if Joins(op, n) then Some(EdgeRecord(op.source, op.destination, op.capacity, op.latencyMs, true))
      else if Drops(op, n) then None
      else if Marks(op, n) && r.Some? then Some(r.value.(healthy := op.MarkHealthy?))
      else r)
  {
    hide Position, Put, Remove, Marked, HealthyLinks, EdgeId;
    match op
    case Connect(s, d, capacity, latency) => PutMembers(m.edges, EdgeId(s, d), EdgeRecord(s, d, capacity, latency, true));
    case Disconnect(s, d) => RemoveMembers(m.edges, EdgeId(s, d));
    case MarkUnhealthy(s, d) => MarkedMembers(m.edges, EdgeId(s, d), false);
    case MarkHealthy(s, d) => MarkedMembers(m.edges, EdgeId(s, d), true);
    case RegisterWorld(_) =>
  }

  /** After any history an edge is in the table, once, exactly when the last call that connects or
      disconnects its name connects it; it has the fields of that call, and is healthy exactly when
      no later call marks it or the last one that does marks it healthy. */
  lemma {:induction false} EdgesFollowTheCalls(ops: seq<Op>, n: string)
    ensures UniqueKeys(Run(UNCONNECTED, ops).edges) && Holds(Run(UNCONNECTED, ops).edges, n, EdgeOf(ops, n))
  {
    hide Apply, Run, EdgeOf, UniqueKeys, Holds, Joins, Drops, Marks;
    if ops == [] {
      NothingHeld(n);
    } else {
      var front, op := ops[..|ops| - 1], ops[|ops| - 1];
      assert ops == front + [op];
      EdgesFollowTheCalls(front, n);
      RunAppends(front, op);
      EdgeOfAppends(front, op, n);
      ApplyHolds(Run(UNCONNECTED, front), op, n, EdgeOf(front, n));
    }
  }

  lemma NothingHeld(n: string)
    ensures UniqueKeys(Run(UNCONNECTED, []).edges) && Holds(Run(UNCONNECTED, []).edges, n, EdgeOf([], n))
  {
  }

  // ----- The order of the edges -----

  /** The position of the call under which a name has stood since it was last disconnected, or -1. */
  ghost function Since(ops: seq<Op>, n: string): (i: int)
    ensures -1 <= i < |ops|
  {
    if ops == [] then -1 else
      var rest, op := Since(ops[..|ops| - 1], n), ops[|ops| - 1];
      if Drops(op, n) then -1 else if Joins(op, n) && rest < 0 then |ops| - 1 else rest
  }

  ghost predicate InOrder(edges: seq<Entry<string, EdgeRecord>>, ops: seq<Op>) {
    (forall i :: 0 <= i < |edges| ==> 0 <= Since(ops, edges[i].key) < |ops|) &&
    forall i, j :: 0 <= i < j < |edges| ==> Since(ops, edges[i].key) < Since(ops, edges[j].key)
  }

  lemma SinceAppends(ops: seq<Op>, op: Op, n: string)
    ensures Since(ops + [op], n) ==
      if Drops(op, n) then -1 else if Joins(op, n) && Since(ops, n) < 0 then |ops| else Since(ops, n)
  {
    assert (ops + [op])[..|ops|] == ops;
  }

  /** A name stands exactly when there is an edge under it. */
  lemma {:induction false} SinceIsHeld(ops: seq<Op>, n: string)
    ensures Since(ops, n) >= 0 <==> EdgeOf(ops, n).Some?
  {
    hide EdgeOf;
    if ops == [] {
      NothingHeld(n);
      assert EdgeOf([], n) == None;
    } else {
      var front, op := ops[..|ops| - 1], ops[|ops| - 1];
      assert ops == front + [op];
      SinceIsHeld(front, n);
      EdgeOfAppends(front, op, n);
    }
  }

  lemma PutKeepsOrder(edges: seq<Entry<string, EdgeRecord>>, ops: seq<Op>, op: Op, r: EdgeRecord)
    requires UniqueKeys(edges) && InOrder(edges, ops) && op.Connect? && EdgeId(op.source, op.destination) == EdgeId(r.source, r.destination)
    requires Position(edges, EdgeId(r.source, r.destination)) >= 0 <==> Since(ops, EdgeId(r.source, r.destination)) >= 0
    ensures InOrder(Put(edges, EdgeId(r.source, r.destination), r), ops + [op])
  {
    hide Position, Since, EdgeId;
    var id := EdgeId(r.source, r.destination);
    var after := Put(edges, id, r);
    forall n ensures Since(ops + [op], n) == if n == id && Since(ops, n) < 0 then |ops| else Since(ops, n) {
      SinceAppends(ops, op, n);
    }
    forall i | 0 <= i < |edges| ensures after[i].key == edges[i].key {
    }
  }

  lemma RemoveKeepsOrder(edges: seq<Entry<string, EdgeRecord>>, ops: seq<Op>, op: Op, id: string)
    requires UniqueKeys(edges) && InOrder(edges, ops) && op.Disconnect? && EdgeId(op.source, op.destination) == id
    ensures InOrder(Remove(edges, id), ops + [op])
  {
    hide Position, Since, EdgeId, Remove, UniqueKeys, InOrder;
    RemovedLacks(edges, id);
    RemovedAt(edges, id);
    var after, p := Remove(edges, id), Position(edges, id);
    var i: nat := if p >= 0 then p else |edges|;
    forall k | 0 <= k < |after| ensures Since(ops + [op], after[k].key) == Since(ops, after[k].key) {
      SinceAppends(ops, op, after[k].key);
    }
    SkippingKeepsOrder(edges, after, i, ops, op);
  }

  lemma RemovedLacks(edges: seq<Entry<string, EdgeRecord>>, id: string)
    requires UniqueKeys(edges)
    ensures forall k :: 0 <= k < |Remove(edges, id)| ==> Remove(edges, id)[k].key != id
  {
    RemoveMembers(edges, id);
    hide Remove;
  }

  lemma SkippingKeepsOrder(edges: seq<Entry<string, EdgeRecord>>, after: seq<Entry<string, EdgeRecord>>, i: nat, ops: seq<Op>, op: Op)
    requires InOrder(edges, ops) && |after| <= |edges| && (|after| == |edges| ==> i >= |after|)
    requires forall k :: 0 <= k < |after| ==> k < |edges| && after[k] == edges[if k < i then k else k + 1]
    requires forall k :: 0 <= k < |after| ==> Since(ops + [op], after[k].key) == Since(ops, after[k].key)
    ensures InOrder(after, ops + [op])
  {
    hide Since;
  }

  lemma SameKeysKeepOrder(edges: seq<Entry<string, EdgeRecord>>, after: seq<Entry<string, EdgeRecord>>, ops: seq<Op>, op: Op)
    requires InOrder(edges, ops) && !op.Connect? && !op.Disconnect?
    requires |after| == |edges| && forall i :: 0 <= i < |edges| ==> after[i].key == edges[i].key
    ensures InOrder(after, ops + [op])
  {
    hide Since;
    forall n ensures Since(ops + [op], n) == Since(ops, n) {
      SinceAppends(ops, op, n);
    }
  }

  lemma HeldIsFound(edges: seq<Entry<string, EdgeRecord>>, n: string, r: Option<EdgeRecord>)
    requires Holds(edges, n, r)
    ensures Position(edges, n) >= 0 <==> r.Some?
  {
    hide Position;
    if Position(edges, n) >= 0 {
      assert edges[Position(edges, n)] in edges;
    }
  }

  lemma ApplyKeepsOrder(m: Mesh, ops: seq<Op>, op: Op)
    requires UniqueKeys(m.edges) && InOrder(m.edges, ops)
    requires op.Connect? ==>
      (Position(m.edges, EdgeId(op.source, op.destination)) >= 0 <==> Since(ops, EdgeId(op.source, op.destination)) >= 0)
    ensures InOrder(Apply(m, op).edges, ops + [op])
  {
    hide InOrder, UniqueKeys, Position, Put, Remove, HealthyLinks, EdgeId, Since;
    match op
    case Connect(s, d, capacity, latency) => PutKeepsOrder(m.edges, ops, op, EdgeRecord(s, d, capacity, latency, true));
    case Disconnect(s, d) =>
      RemovedAt(m.edges, EdgeId(s, d));
      RemoveKeepsOrder(m.edges, ops, op, EdgeId(s, d));
    case MarkUnhealthy(s, d) => SameKeysKeepOrder(m.edges, Apply(m, op).edges, ops, op);
    case MarkHealthy(s, d) => SameKeysKeepOrder(m.edges, Apply(m, op).edges, ops, op);
    case RegisterWorld(_) => SameKeysKeepOrder(m.edges, m.edges, ops, op);
  }

  /** The edges stand in the order in which their names were connected, counted from the last
      disconnection: connecting a standing name again keeps its place. */
  lemma {:induction false} EdgesKeepTheirOrder(ops: seq<Op>)
    ensures InOrder(Run(UNCONNECTED, ops).edges, ops)
  {
    hide Apply, InOrder, EdgeOf, UniqueKeys, Holds, Joins, Drops, Marks, Since;
    if ops == [] {
      NothingInOrder();
    } else {
      var front, op := ops[..|ops| - 1], ops[|ops| - 1];
      assert ops == front + [op];
      EdgesKeepTheirOrder(front);
      RunAppends(front, op);
      hide Run;
      EdgesFollowTheCalls(front, "");
      if op.Connect? {
        var id := EdgeId(op.source, op.destination);
        EdgesFollowTheCalls(front, id);
        HeldIsFound(Run(UNCONNECTED, front).edges, id, EdgeOf(front, id));
        SinceIsHeld(front, id);
      }
      ApplyKeepsOrder(Run(UNCONNECTED, front), front, op);
    }
  }

  lemma NothingInOrder()
    ensures InOrder(Run(UNCONNECTED, []).edges, [])
  {
  }

  // ----- The world domain and the routes -----

  /** The world domain is the first one registered. */
  ghost function WorldOf(ops: seq<Op>): Option<string> {
    if ops == [] then None else
      var rest, op := WorldOf(ops[..|ops| - 1]), ops[|ops| - 1];
      if rest.None? && op.RegisterWorld? then Some(op.id) else rest
  }

  /** The call connects an edge, or disconnects or marks one that stands. */
  ghost predicate Alters(ops: seq<Op>, op: Op) {
    op.Connect? || (!op.RegisterWorld? && Since(ops, EdgeId(op.source, op.destination)) >= 0)
  }

  /** Some call has altered an edge since the world domain was registered. */
  ghost predicate Routed(ops: seq<Op>) {
    ops != [] &&
    (Routed(ops[..|ops| - 1]) ||
     (WorldOf(ops[..|ops| - 1]).Some? && WorldOf(ops[..|ops| - 1]).value != "" && Alters(ops[..|ops| - 1], ops[|ops| - 1])))
  }

  lemma AltersRebuilds(ops: seq<Op>, op: Op)
    ensures Rebuilds(Run(UNCONNECTED, ops), op) <==> Alters(ops, op)
  {
    hide Run, EdgeOf, UniqueKeys, Holds, Since, EdgeId;
    if !op.RegisterWorld? {
      var id := EdgeId(op.source, op.destination);
      EdgesFollowTheCalls(ops, id);
      HeldIsFound(Run(UNCONNECTED, ops).edges, id, EdgeOf(ops, id));
      SinceIsHeld(ops, id);
    }
  }

  lemma ApplyRoutes(m: Mesh, op: Op)
    ensures Apply(m, op).world == if m.world.None? && op.RegisterWorld? then Some(op.id) else m.world
    ensures Rebuilds(m, op) && HasWorld(m) ==> Apply(m, op).table == Routes(m.world.value, HealthyLinks(Apply(m, op).edges))
    ensures !(Rebuilds(m, op) && HasWorld(m)) ==> Apply(m, op).table == m.table
    ensures !Rebuilds(m, op) ==> Apply(m, op).edges == m.edges
  {
    hide Position, Put, Remove, Marked, HealthyLinks, EdgeId, Routes;
  }

  /** The world domain is the first registered, and the table holds the routes over the healthy
      edges exactly once a call has altered an edge since; until then it is empty. */
  lemma {:induction false} RoutesFollowTheCalls(ops: seq<Op>)
    ensures var m := Run(UNCONNECTED, ops);
      m.world == WorldOf(ops) &&
      (Routed(ops) ==> HasWorld(m) && m.table == Routes(m.world.value, HealthyLinks(m.edges))) &&
      (!Routed(ops) ==> m.table == map[])
  {
    hide Apply, HealthyLinks, Routes, Since, EdgeId, Rebuilds, Alters;
    if ops != [] {
      var front, op := ops[..|ops| - 1], ops[|ops| - 1];
      assert ops == front + [op];
      RoutesFollowTheCalls(front);
      RunAppends(front, op);
      AltersRebuilds(front, op);
      ApplyRoutes(Run(UNCONNECTED, front), op);
    }
  }

  // ----- Routes, read off the calls -----

  /** The calls leave a healthy edge from one domain to another. */
  ghost predicate Usable(ops: seq<Op>, a: string, b: string) {
    var r := EdgeOf(ops, EdgeId(a, b));
    r.Some? && r.value.source == a && r.value.destination == b && r.value.healthy
  }

  /** A walk from one domain to another over such edges. */
  ghost predicate Chain(ops: seq<Op>, a: string, b: string, p: seq<string>) {
    |p| > 0 && p[0] == a && p[|p| - 1] == b && forall i :: 0 < i < |p| ==> Usable(ops, p[i - 1], p[i])
  }

  lemma {:induction false} HealthyLinksExactly(edges: seq<Entry<string, EdgeRecord>>, l: Link)
    ensures l in HealthyLinks(edges) <==>
            exists e <- edges :: e.value.healthy && e.value.source == l.source && e.value.destination == l.destination
  {
    if edges != [] {
      var n := |edges| - 1;
      HealthyLinksExactly(edges[..n], l);
      assert forall e :: e in edges <==> e in edges[..n] || e == edges[n];
    }
  }

  lemma LinksAreUsable(ops: seq<Op>, a: string, b: string)
    ensures Link(a, b) in HealthyLinks(Run(UNCONNECTED, ops).edges) <==> Usable(ops, a, b)
  {
    hide Run, HealthyLinks, EdgeOf, EdgeId;
    var edges, n := Run(UNCONNECTED, ops).edges, EdgeId(a, b);
    HealthyLinksExactly(edges, Link(a, b));
    EdgesFollowTheCalls(ops, n);
    RunKeepsPrinted(UNCONNECTED, ops);
    if e :| e in edges && e.value.source == a && e.value.destination == b {
      assert e.key == n;
      OneUnderKey(edges, e, n, EdgeOf(ops, n));
    }
  }

  lemma OneUnderKey(edges: seq<Entry<string, EdgeRecord>>, e: Entry<string, EdgeRecord>, n: string, r: Option<EdgeRecord>)
    requires UniqueKeys(edges) && e in edges && e.key == n && Holds(edges, n, r)
    ensures r == Some(e.value)
  {
    var i :| 0 <= i < |edges| && edges[i] == e;
    assert r.Some? && Entry(n, r.value) in edges;
    var j :| 0 <= j < |edges| && edges[j] == Entry(n, r.value);
    assert i == j;
  }

  lemma ChainsAreWalks(ops: seq<Op>, a: string, b: string, p: seq<string>)
    ensures Connects(HealthyLinks(Run(UNCONNECTED, ops).edges), a, b, p) <==> Chain(ops, a, b, p)
  {
    hide Run, HealthyLinks, Usable;
    var links := HealthyLinks(Run(UNCONNECTED, ops).edges);
    forall i | 0 < i < |p| ensures Link(p[i - 1], p[i]) in links <==> Usable(ops, p[i - 1], p[i]) {
      LinksAreUsable(ops, p[i - 1], p[i]);
    }
  }

  /** After any history that has altered an edge since the world domain was registered, there is a
      route to a domain exactly when it is another and a chain of healthy edges leads to it; the
      route is such a chain, repeats no domain, and is at most one hop longer than any other. */
  lemma RoutesLeadOverTheEdges(ops: seq<Op>, v: string)
    requires Routed(ops)
    ensures var m := Run(UNCONNECTED, ops);
      WorldOf(ops).Some? &&
      var world := WorldOf(ops).value;
      (v in m.table <==> v != world && exists p :: Chain(ops, world, v, p)) &&
      (v in m.table ==> Chain(ops, world, v, m.table[v]) && Distinct(m.table[v]) &&
                        forall p :: Chain(ops, world, v, p) ==> |m.table[v]| <= |p| + 1)
  {
    hide Run, HealthyLinks, Chain, Connects, Routes, Distinct, Routed;
    RoutesFollowTheCalls(ops);
    var m := Run(UNCONNECTED, ops);
    var links, world := HealthyLinks(m.edges), m.world.value;
    var best := RouteInStep(m, v);
    forall p ensures Connects(links, world, v, p) <==> Chain(ops, world, v, p) {
      ChainsAreWalks(ops, world, v, p);
    }
  }
}
