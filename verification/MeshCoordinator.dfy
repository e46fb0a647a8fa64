/** The mesh coordinator: an insertion-ordered table of edges, and the routing table rebuilt
    from its healthy ones by every change to it. */
module MeshCoordinator {
  import opened Prelude
  import opened MeshRouting
  import opened MeshOrder
  import DomainRegistry

  // ----- The mesh and its operations -----

  datatype EdgeRecord = EdgeRecord(source: string, destination: string, capacity: int, latencyMs: real, healthy: bool)

  datatype Mesh = Mesh(edges: seq<Entry<string, EdgeRecord>>, world: Option<string>, table: map<string, seq<string>>)

  function EdgeId(source: string, destination: string): string {
    source + "→" + destination
  }

  /** The healthy edges as links, in the order the edge table iterates them. */
  ghost function HealthyLinks(edges: seq<Entry<string, EdgeRecord>>): seq<Link> {
    if edges == [] then [] else
      var rest := HealthyLinks(edges[..|edges| - 1]);
      var e := edges[|edges| - 1].value;
      if e.healthy then rest + [Link(e.source, e.destination)] else rest
  }

  ghost predicate HasWorld(m: Mesh) {
    m.world.Some? && m.world.value != ""
  }

  ghost function Rebuilt(m: Mesh): Mesh {
    if HasWorld(m) then m.(table := Routes(m.world.value, HealthyLinks(m.edges))) else m
  }

  ghost function Marked(edges: seq<Entry<string, EdgeRecord>>, id: string, healthy: bool): seq<Entry<string, EdgeRecord>> {
    var i := Position(edges, id);
    if i >= 0 then edges[i := Entry(id, edges[i].value.(healthy := healthy))] else edges
  }

  datatype Op =
    | Connect(source: string, destination: string, capacity: int, latencyMs: real)
    | Disconnect(source: string, destination: string)
    | MarkUnhealthy(source: string, destination: string)
    | MarkHealthy(source: string, destination: string)
    | RegisterWorld(id: string)

  ghost function Apply(m: Mesh, op: Op): Mesh {
    match op
    case Connect(s, d, capacity, latency) =>
      Rebuilt(m.(edges := Put(m.edges, EdgeId(s, d), EdgeRecord(s, d, capacity, latency, true))))
    case Disconnect(s, d) =>
      if Position(m.edges, EdgeId(s, d)) >= 0 then Rebuilt(m.(edges := Remove(m.edges, EdgeId(s, d)))) else m
    case MarkUnhealthy(s, d) =>
      if Position(m.edges, EdgeId(s, d)) >= 0 then Rebuilt(m.(edges := Marked(m.edges, EdgeId(s, d), false))) else m
    case MarkHealthy(s, d) =>
      if Position(m.edges, EdgeId(s, d)) >= 0 then Rebuilt(m.(edges := Marked(m.edges, EdgeId(s, d), true))) else m
    case RegisterWorld(id) =>
      if m.world.None? then m.(world := Some(id)) else m
  }

  // ----- Histories -----

  /** The operation changes the edge table, and so rebuilds the routes. */
  ghost predicate Rebuilds(m: Mesh, op: Op) {
    op.Connect? || (!op.RegisterWorld? && Position(m.edges, EdgeId(op.source, op.destination)) >= 0)
  }

  ghost predicate InStep(m: Mesh) {
    HasWorld(m) && m.table == Routes(m.world.value, HealthyLinks(m.edges))
  }

  ghost function Run(m: Mesh, ops: seq<Op>): Mesh
    decreases |ops|
  {
    if ops == [] then m else Run(Apply(m, ops[0]), ops[1..])
  }

  lemma ApplyKeepsInStep(m: Mesh, op: Op)
    requires InStep(m)
    ensures InStep(Apply(m, op)) && Apply(m, op).world == m.world
  {
    hide Position, Put, Remove, Marked, HealthyLinks, Routes, EdgeId;
  }

  lemma {:induction false} RunKeepsInStep(m: Mesh, ops: seq<Op>)
    requires InStep(m)
    ensures InStep(Run(m, ops)) && Run(m, ops).world == m.world
    decreases |ops|
  {
    if ops != [] {
      ApplyKeepsInStep(m, ops[0]);
      hide InStep, Apply;
      RunKeepsInStep(Apply(m, ops[0]), ops[1..]);
    }
  }

  lemma {:induction false} RunSplits(m: Mesh, first: seq<Op>, second: seq<Op>)
    ensures Run(m, first + second) == Run(Run(m, first), second)
    decreases |first|
  {
    if first == [] {
      assert first + second == second;
    } else {
      assert (first + second)[1..] == first[1..] + second;
      RunSplits(Apply(m, first[0]), first[1..], second);
    }
  }

  /** What a table in step says of one domain. */
  lemma RouteInStep(m: Mesh, v: string) returns (best: seq<string>)
    requires InStep(m)
    ensures var links := HealthyLinks(m.edges);
      (v in m.table <==> v != m.world.value && Reachable(links, m.world.value, v)) &&
      (v in m.table ==>
         Connects(links, m.world.value, v, m.table[v]) && Distinct(m.table[v]) &&
         IsShortest(links, m.world.value, v, best) && |best| <= |m.table[v]| <= |best| + 1)
  {
    RoutesReachExactly(m.world.value, HealthyLinks(m.edges), v);
    best := [];
    if v in m.table {
      best := RoutesAreNearlyShortest(m.world.value, HealthyLinks(m.edges), v);
    }
  }

  /** Once one operation that rebuilds the routes has followed the registration of the world
      domain, whatever comes later, the routes lead to exactly the other domains that the
      currently healthy edges reach, along repetition-free healthy walks at most one hop
      longer than the shortest. */
  lemma RoutesFollowTheHealthyEdges(before: seq<Op>, op: Op, after: seq<Op>, v: string) returns (best: seq<string>)
    requires var m := Run(Mesh([], None, map[]), before); HasWorld(m) && Rebuilds(m, op)
    ensures var m := Run(Mesh([], None, map[]), before + [op] + after);
      var links := HealthyLinks(m.edges);
      m.world.Some? &&
      (v in m.table <==> v != m.world.value && Reachable(links, m.world.value, v)) &&
      (v in m.table ==>
         Connects(links, m.world.value, v, m.table[v]) && Distinct(m.table[v]) &&
         IsShortest(links, m.world.value, v, best) && |best| <= |m.table[v]| <= |best| + 1)
  {
    RebuildPutsInStep(before, op, after);
    best := RouteInStep(Run(Mesh([], None, map[]), before + [op] + after), v);
  }

  lemma RebuildPutsInStep(before: seq<Op>, op: Op, after: seq<Op>)
    requires var m := Run(Mesh([], None, map[]), before); HasWorld(m) && Rebuilds(m, op)
    ensures InStep(Run(Mesh([], None, map[]), before + [op] + after))
  {
    var start := Mesh([], None, map[]);
    var m := Run(start, before);
    RunSplits(start, before, [op] + after);
    assert before + ([op] + after) == before + [op] + after;
    assert ([op] + after)[1..] == after;
    RunKeepsInStep(Apply(m, op), after);
  }

  // ----- Which routes are too long -----

  /** Edges are kept under their printed names, each name once. */
  ghost predicate Printed(edges: seq<Entry<string, EdgeRecord>>) {
    UniqueKeys(edges) && forall e <- edges :: e.key == EdgeId(e.value.source, e.value.destination)
  }

  lemma ApplyKeepsPrinted(m: Mesh, op: Op)
    requires Printed(m.edges)
    ensures Printed(Apply(m, op).edges)
  {
    hide Printed, HealthyLinks;
    match op
    case Connect(source, destination, capacity, latencyMs) =>
      PutKeepsPrinted(m.edges, EdgeRecord(source, destination, capacity, latencyMs, true));
    case Disconnect(source, destination) => RemoveKeepsPrinted(m.edges, EdgeId(source, destination));
    case MarkUnhealthy(source, destination) => MarkKeepsPrinted(m.edges, EdgeId(source, destination), false);
    case MarkHealthy(source, destination) => MarkKeepsPrinted(m.edges, EdgeId(source, destination), true);
    case RegisterWorld(_) =>
  }

  lemma PutKeepsPrinted(edges: seq<Entry<string, EdgeRecord>>, r: EdgeRecord)
    requires Printed(edges)
    ensures Printed(Put(edges, EdgeId(r.source, r.destination), r))
  {
    var id := EdgeId(r.source, r.destination);
    var i := Position(edges, id);
    hide EdgeId;
    assert forall e <- Put(edges, id, r) :: e in edges || e == Entry(id, r);
  }

  lemma RemoveKeepsPrinted(edges: seq<Entry<string, EdgeRecord>>, id: string)
    requires Printed(edges)
    ensures Printed(Remove(edges, id))
  {
    hide EdgeId;
    assert forall e <- Remove(edges, id) :: e in edges;
  }

  lemma MarkKeepsPrinted(edges: seq<Entry<string, EdgeRecord>>, id: string, healthy: bool)
    requires Printed(edges)
    ensures Printed(Marked(edges, id, healthy))
  {
    hide EdgeId;
    var i := Position(edges, id);
    if i >= 0 {
      assert edges[i] in edges;
      assert forall e <- Marked(edges, id, healthy) :: e in edges || e == Entry(id, edges[i].value.(healthy := healthy));
    }
  }

  lemma {:induction false} RunKeepsPrinted(m: Mesh, ops: seq<Op>)
    requires Printed(m.edges)
    ensures Printed(Run(m, ops).edges)
    decreases |ops|
  {
    hide Printed, Apply;
    if ops != [] {
      ApplyKeepsPrinted(m, ops[0]);
      RunKeepsPrinted(Apply(m, ops[0]), ops[1..]);
    }
  }

  lemma {:induction false} HealthyLinksAreOfEdges(edges: seq<Entry<string, EdgeRecord>>, l: Link)
    requires l in HealthyLinks(edges)
    ensures exists e <- edges :: l == Link(e.value.source, e.value.destination)
  {
    var n := |edges| - 1;
    assert edges == edges[..n] + [edges[n]];
    if l in HealthyLinks(edges[..n]) {
      HealthyLinksAreOfEdges(edges[..n], l);
    }
  }

  /** Two edges never run between the same two domains. */
  lemma {:induction false} HealthyLinksAreDistinct(edges: seq<Entry<string, EdgeRecord>>)
    requires Printed(edges)
    ensures Distinct(HealthyLinks(edges))
  {
    if edges != [] {
      var n := |edges| - 1;
      var rest, e := HealthyLinks(edges[..n]), edges[n].value;
      HealthyLinksAreDistinct(edges[..n]);
      var l := Link(e.source, e.destination);
      assert edges[n] in edges;
      if l in rest {
        HealthyLinksAreOfEdges(edges[..n], l);
        assert false;
      }
    }
  }

  /** Once the routes have been rebuilt, the route to a domain is longer than a shortest one exactly
      when another, equally far and with an earlier first walk, has a healthy edge to it. */
  lemma RouteIsLongExactlyWhenEdgesSay(before: seq<Op>, op: Op, after: seq<Op>, v: string)
    requires var m := Run(Mesh([], None, map[]), before); HasWorld(m) && Rebuilds(m, op)
    ensures var m := Run(Mesh([], None, map[]), before + [op] + after);
      var links := HealthyLinks(m.edges);
      m.world.Some? &&
      (v in m.table ==> (!IsShortest(links, m.world.value, v, m.table[v]) <==> Overtaken(links, m.world.value, v)))
  {
    hide IsShortest, Overtaken, HealthyLinks, Distinct;
    var m := Run(Mesh([], None, map[]), before + [op] + after);
    RebuildPutsInStep(before, op, after);
    RunKeepsPrinted(Mesh([], None, map[]), before + [op] + after);
    HealthyLinksAreDistinct(m.edges);
    if v in m.table {
      RouteIsLongExactlyWhenOvertaken(m.world.value, HealthyLinks(m.edges), v);
    }
  }

  /** Until the world domain is registered there are no routes at all. */
  lemma {:induction false} NoRoutesWithoutWorld(m: Mesh, ops: seq<Op>)
    requires m.table == map[] && !HasWorld(m)
    requires !HasWorld(Run(m, ops))
    ensures Run(m, ops).table == map[]
    decreases |ops|
  {
    if ops != [] {
      if HasWorld(Apply(m, ops[0])) {
        WorldIsKept(Apply(m, ops[0]), ops[1..]);
      } else {
        NoRoutesWithoutWorld(Apply(m, ops[0]), ops[1..]);
      }
    }
  }

  lemma {:induction false} WorldIsKept(m: Mesh, ops: seq<Op>)
    requires m.world.Some?
    ensures Run(m, ops).world == m.world
    decreases |ops|
  {
    if ops != [] {
      WorldIsKept(Apply(m, ops[0]), ops[1..]);
    }
  }

  /** Edges are keyed by a printed name, so connecting one pair replaces the edge of any other
      pair that prints alike, and only of such a pair. */
  lemma ConnectKeepsEdgeExactlyWhen(m: Mesh, s: string, d: string, capacity: int, latency: real, i: nat)
    requires UniqueKeys(m.edges) && i < |m.edges|
    requires m.edges[i].key == EdgeId(m.edges[i].value.source, m.edges[i].value.destination)
    requires m.edges[i].value != EdgeRecord(s, d, capacity, latency, true)
    ensures m.edges[i] in Apply(m, Connect(s, d, capacity, latency)).edges <==>
            EdgeId(m.edges[i].value.source, m.edges[i].value.destination) != EdgeId(s, d)
  {
    var p := Position(m.edges, EdgeId(s, d));
    var after := Apply(m, Connect(s, d, capacity, latency)).edges;
    assert i != p ==> after[i] == m.edges[i];
  }

  lemma DifferentPairsCanPrintAlike()
    ensures EdgeId("a", "b→c") == EdgeId("a→b", "c")
  {
    assert "a→b" == "a" + "→" + "b" && "b→c" == "b" + "→" + "c";
  }

  /** So the second of two such connections leaves the mesh without the first. */
  lemma LookalikeReplacesEdge(capacity: int, latencyMs: real)
    ensures var m := Run(Mesh([], None, map[]), [Connect("a", "b→c", capacity, latencyMs), Connect("a→b", "c", capacity, latencyMs)]);
      m.edges == [Entry(EdgeId("a→b", "c"), EdgeRecord("a→b", "c", capacity, latencyMs, true))]
  {
    hide EdgeId, HealthyLinks;
    DifferentPairsCanPrintAlike();
    var first, second := Connect("a", "b→c", capacity, latencyMs), Connect("a→b", "c", capacity, latencyMs);
    var ops := [first, second];
    var one := Apply(Mesh([], None, map[]), first);
    assert ops[1..] == [second] && ops[1..][1..] == [];
    assert Run(Mesh([], None, map[]), ops) == Run(one, [second]);
    assert one.edges == [Entry(EdgeId("a", "b→c"), EdgeRecord("a", "b→c", capacity, latencyMs, true))];
    assert Position(one.edges, EdgeId("a→b", "c")) == 0;
    assert Run(one, [second]) == Run(Apply(one, second), []);
  }

  // ----- The coordinator -----

  class MeshEdge {
    const source: string
    const destination: string
    const capacity: int
    const latencyMs: real
    var healthy: bool

    constructor (source: string, destination: string, capacity: int, latencyMs: real)
      ensures Carries(EdgeRecord(source, destination, capacity, latencyMs, true))
    {
      this.source, this.destination, this.capacity, this.latencyMs := source, destination, capacity, latencyMs;
      healthy := true;
    }

    ghost predicate Carries(r: EdgeRecord)
      reads this
    {
      EdgeRecord(source, destination, capacity, latencyMs, healthy) == r
    }
  }

  /** The edge objects of a table. */
  ghost function Objects(edges: seq<Entry<string, MeshEdge>>): set<MeshEdge> {
    set e | e in edges :: e.value
  }

  lemma {:induction false} SamePosition(d: seq<Entry<string, MeshEdge>>, e: seq<Entry<string, EdgeRecord>>, k: string)
    requires |d| == |e| && forall i :: 0 <= i < |d| ==> d[i].key == e[i].key
    ensures Position(d, k) == Position(e, k)
  {
    if d != [] && d[|d| - 1].key != k {
      SamePosition(d[..|d| - 1], e[..|e| - 1], k);
    }
  }

  lemma DiscoverNext(records: seq<Entry<string, EdgeRecord>>, i: nat, current: string, visited: set<string>)
    requires i < |records|
    ensures var r := records[i].value;
      Discovered(HealthyLinks(records[..i + 1]), current, visited) ==
      Discovered(HealthyLinks(records[..i]), current, visited) +
      (if r.healthy && r.source == current && r.destination !in visited then [r.destination] else [])
  {
    assert records[..i + 1][..i] == records[..i];
    var links := HealthyLinks(records[..i + 1]);
    if records[i].value.healthy {
      assert links[..|links| - 1] == HealthyLinks(records[..i]);
    }
  }

  lemma EnterNext(table: map<string, seq<string>>, path: seq<string>, ds: seq<string>, d: string)
    ensures Enter(table, path, ds + [d]) == Enter(table, path, ds)[d := path + [d]]
    ensures Extensions(path, ds + [d]) == Extensions(path, ds) + [path + [d]]
  {
  }

  lemma EnterNothing(table: map<string, seq<string>>, path: seq<string>)
    ensures Enter(table, path, []) == table && Extensions(path, []) == []
  {
  }

  lemma RemovedAt<V>(d: seq<Entry<string, V>>, k: string)
    ensures var i := Position(d, k);
      if i < 0 then Remove(d, k) == d
      else |Remove(d, k)| == |d| - 1 && forall j :: 0 <= j < |d| - 1 ==> Remove(d, k)[j] == d[if j < i then j else j + 1]
  {
    hide Position;
    var i := Position(d, k);
    if i >= 0 {
      CutAt(d, i);
    }
  }

  /** `after` is `d` without its one entry under a key. */
  ghost predicate LacksOne(d: seq<Entry<string, EdgeRecord>>, k: string, after: seq<Entry<string, EdgeRecord>>) {
    exists i :: 0 <= i < |d| && d[i].key == k && after == d[..i] + d[i + 1..]
  }

  lemma RemovedLacksOne(d: seq<Entry<string, EdgeRecord>>, k: string)
    ensures if Position(d, k) >= 0 then LacksOne(d, k, Remove(d, k)) else Remove(d, k) == d
  {
    hide Position;
  }

  lemma PutKeepsUnique(d: seq<Entry<string, EdgeRecord>>, k: string, r: EdgeRecord)
    requires UniqueKeys(d)
    ensures UniqueKeys(Put(d, k, r))
  {
    PutMembers(d, k, r);
  }

  lemma RemoveKeepsUnique(d: seq<Entry<string, EdgeRecord>>, k: string)
    requires UniqueKeys(d)
    ensures UniqueKeys(Remove(d, k))
  {
    RemoveMembers(d, k);
  }

  lemma CutAt<V>(d: seq<Entry<string, V>>, i: nat)
    requires i < |d|
    ensures var rest := d[..i] + d[i + 1..];
      |rest| == |d| - 1 && forall j :: 0 <= j < |d| - 1 ==> rest[j] == d[if j < i then j else j + 1]
  {
  }

  class MeshCoordinator {
    const registry: DomainRegistry.DomainRegistry
    var edges: seq<Entry<string, MeshEdge>>
    var routingTable: map<string, seq<string>>
    ghost var records: seq<Entry<string, EdgeRecord>>

    ghost predicate Valid()
      reads this`edges, this`records, Objects(edges)
    {
      |edges| == |records| && UniqueKeys(records) &&
      (forall i, j :: 0 <= i < j < |edges| ==> edges[i].value != edges[j].value) &&
      forall i :: 0 <= i < |edges| ==> edges[i].key == records[i].key && edges[i].value.Carries(records[i].value)
    }

    ghost function View(): Mesh
      reads this, registry`worldDomainId
    {
      Mesh(records, registry.worldDomainId, routingTable)
    }

    constructor (registry: DomainRegistry.DomainRegistry)
      ensures Valid() && this.registry == registry
      ensures View() == Mesh([], registry.worldDomainId, map[]) && edges == []
    {
      this.registry := registry;
      edges, routingTable, records := [], map[], [];
    }

    method EstablishConnection(source: string, destination: string, capacity: int, latencyMs: real) returns (edgeId: string)
      requires Valid()
      modifies this
      ensures Valid()
      ensures edgeId == EdgeId(source, destination)
      ensures View() == Apply(old(View()), Connect(source, destination, capacity, latencyMs))
      ensures forall e :: e in records <==>
        e == Entry(edgeId, EdgeRecord(source, destination, capacity, latencyMs, true)) || (e in old(records) && e.key != edgeId)
      ensures fresh(Objects(edges) - old(Objects(edges)))
    {
      hide Rebuilt, Valid, Objects;
      edgeId := EdgeId(source, destination);
      KeysAgree(edgeId);
      PutMembers(records, edgeId, EdgeRecord(source, destination, capacity, latencyMs, true));
      StoreEdge(edgeId, source, destination, capacity, latencyMs);
      RebuildRoutingTable();
    }

    method StoreEdge(edgeId: string, source: string, destination: string, capacity: int, latencyMs: real)
      requires Valid()
      modifies this`edges, this`records
      ensures Valid() && records == Put(old(records), edgeId, EdgeRecord(source, destination, capacity, latencyMs, true))
      ensures fresh(Objects(edges) - old(Objects(edges)))
    {
      var edge := new MeshEdge(source, destination, capacity, latencyMs);
      SamePosition(edges, records, edgeId);
      PutKeepsUnique(records, edgeId, EdgeRecord(source, destination, capacity, latencyMs, true));
      hide UniqueKeys, Position;
      edges := Put(edges, edgeId, edge);
      records := Put(records, edgeId, EdgeRecord(source, destination, capacity, latencyMs, true));
    }

    method DisconnectEdge(source: string, destination: string) returns (found: bool)
      requires Valid()
      modifies this
      ensures Valid()
      ensures found == (Position(old(records), EdgeId(source, destination)) >= 0)
      ensures View() == Apply(old(View()), Disconnect(source, destination))
      ensures if found then LacksOne(old(records), EdgeId(source, destination), records) else records == old(records)
      ensures forall e <- records :: e.key != EdgeId(source, destination)
      ensures Objects(edges) <= old(Objects(edges))
    {
      hide Rebuilt, Valid, Objects;
      var edgeId := EdgeId(source, destination);
      KeysAgree(edgeId);
      if Position(edges, edgeId) < 0 {
        return false;
      }
      RemoveMembers(records, edgeId);
      RemovedLacksOne(records, edgeId);
      hide LacksOne, Remove;
      DropEdge(edgeId);
      RebuildRoutingTable();
      return true;
    }

    method DropEdge(edgeId: string)
      requires Valid()
      modifies this`edges, this`records
      ensures Valid() && records == Remove(old(records), edgeId)
      ensures Objects(edges) <= old(Objects(edges))
    {
      SamePosition(edges, records, edgeId);
      RemovedAt(edges, edgeId);
      RemovedAt(records, edgeId);
      RemoveKeepsUnique(records, edgeId);
      hide Position, Remove, UniqueKeys;
      edges := Remove(edges, edgeId);
      records := Remove(records, edgeId);
    }

    lemma KeysAgree(edgeId: string)
      requires Valid()
      ensures Position(edges, edgeId) == Position(records, edgeId) && UniqueKeys(records)
      ensures Position(edges, edgeId) < 0 ==> forall e <- records :: e.key != edgeId
      ensures forall i :: 0 <= i < |records| && i != Position(edges, edgeId) ==> records[i].key != edgeId
    {
      SamePosition(edges, records, edgeId);
    }

    method MarkEdge(source: string, destination: string, healthy: bool) returns (found: bool)
      requires Valid()
      modifies this`routingTable, this`records, Objects(edges)
      ensures Valid()
      ensures found == (Position(old(records), EdgeId(source, destination)) >= 0)
      ensures View() == Apply(old(View()), if healthy then MarkHealthy(source, destination) else MarkUnhealthy(source, destination))
      ensures |records| == |old(records)| && forall i :: 0 <= i < |records| ==>
        records[i] == if old(records)[i].key == EdgeId(source, destination) then
                        Entry(old(records)[i].key, old(records)[i].value.(healthy := healthy))
                      else old(records)[i]
    {
      hide Rebuilt, Valid, Objects;
      var edgeId := EdgeId(source, destination);
      KeysAgree(edgeId);
      if Position(edges, edgeId) < 0 {
        return false;
      }
      SetHealth(edgeId, healthy);
      RebuildRoutingTable();
      return true;
    }

    method SetHealth(edgeId: string, healthy: bool)
      requires Valid() && Position(edges, edgeId) >= 0
      modifies this`records, Objects(edges)
      ensures Valid() && records == Marked(old(records), edgeId, healthy)
    {
      SamePosition(edges, records, edgeId);
      var i := Position(edges, edgeId);
      assert edges[i] in edges;
      hide Position;
      edges[i].value.healthy := healthy;
      records := Marked(records, edgeId, healthy);
    }

    /** Of a table in step, the route from the world domain to the given one: there is one exactly
        when the domain is another and reachable, and it is at most one hop too long. */
    method GetRouteToWorld(domainId: string) returns (route: Option<seq<string>>, ghost best: seq<string>)
      ensures route.Some? <==> domainId in routingTable
      ensures route.Some? ==> route.value == routingTable[domainId]
      ensures InStep(View()) ==>
        var links, world := HealthyLinks(View().edges), View().world.value;
        (route.Some? <==> domainId != world && Reachable(links, world, domainId)) &&
        (route.Some? ==>
           Connects(links, world, domainId, route.value) && Distinct(route.value) &&
           IsShortest(links, world, domainId, best) && |best| <= |route.value| <= |best| + 1)
    {
      route := if domainId in routingTable then Some(routingTable[domainId]) else None;
      best := [];
      if InStep(View()) {
        best := RouteInStep(View(), domainId);
      }
    }

    /** The search loop computes the routes of the healthy links. */
    method RebuildRoutingTable()
      requires Valid()
      modifies this`routingTable
      ensures Valid() && View() == Rebuilt(old(View()))
    {
      if registry.worldDomainId.None? || registry.worldDomainId.value == "" {
        return;
      }
      hide HealthyLinks, Discovered, Enter, Extensions, Tracking, Dequeue, Nodes, Outcome, Carried, Paths;
      var world := registry.worldDomainId.value;
      ghost var links := HealthyLinks(records);
      routingTable := map[];
      var visited: set<string> := {};
      var queue := [(world, [world])];
      ghost var search := Start(world);
      TrackingStarts(world, links);
      while |queue| > 0
        invariant Valid() && Tracking(world, links, search, queue, visited, routingTable)
        decreases Nodes(world, links) - visited, |queue|
      {
        var (current, path) := queue[0];
        TrackingAdvances(world, links, search, queue, visited, routingTable);
        ghost var before, table := search, routingTable;
        search := Dequeue(links, search);
        if current in visited {
          queue := queue[1..];
          continue;
        }
        var rest := Scan(current, path, visited + {current}, queue[1..]);
        TrackingExpands(world, links, before, queue, rest, visited, table, routingTable);
        visited := visited + {current};
        queue := rest;
      }
      TrackingEnds(world, links, search, queue, visited, routingTable);
    }

    /** The inner loop: each healthy edge that leaves the current node for an unvisited one
        enters a longer walk in the table and at the end of the queue. */
    method Scan(current: string, path: seq<string>, visited: set<string>, queue: seq<(string, seq<string>)>)
      returns (queue': seq<(string, seq<string>)>)
      requires Valid() && Carried(queue)
      modifies this`routingTable
      ensures var ds := Discovered(HealthyLinks(records), current, visited);
        Paths(queue') == Paths(queue) + Extensions(path, ds) && Carried(queue') &&
        routingTable == Enter(old(routingTable), path, ds)
    {
      hide HealthyLinks, Discovered, Enter, Extensions, Paths, Carried;
      queue' := queue;
      ghost var ds := [];
      EnterNothing(routingTable, path);
      DiscoverNothing(current, visited);
      assert records[..0] == [];
      for i := 0 to |edges|
        invariant Valid() && Carried(queue') && ds == Discovered(HealthyLinks(records[..i]), current, visited)
        invariant Paths(queue') == Paths(queue) + Extensions(path, ds)
        invariant routingTable == Enter(old(routingTable), path, ds)
      {
        var edge := edges[i].value;
        DiscoverNext(records, i, current, visited);
        if !edge.healthy {
          continue;
        }
        if edge.source == current && edge.destination !in visited {
          var newPath := path + [edge.destination];
          QueueNext(queue', edge.destination, path);
          EnterNext(old(routingTable), path, ds, edge.destination);
          ds := ds + [edge.destination];
          routingTable := routingTable[edge.destination := newPath];
          queue' := queue' + [(edge.destination, newPath)];
        }
      }
      assert records[..|edges|] == records;
    }
  }

  lemma QueueNext(queue: seq<(string, seq<string>)>, d: string, path: seq<string>)
    requires Carried(queue)
    ensures Carried(queue + [(d, path + [d])])
    ensures Paths(queue + [(d, path + [d])]) == Paths(queue) + [path + [d]]
  {
  }

  lemma QueueTail(queue: seq<(string, seq<string>)>)
    requires Carried(queue) && queue != []
    ensures Carried(queue[1..]) && Paths(queue[1..]) == Paths(queue)[1..]
    ensures |Paths(queue)| == |queue| && Paths(queue)[0] == queue[0].1 && queue[0].0 == End(queue[0].1)
  {
  }

  /** The loop's variables follow the search. */
  ghost predicate Tracking(world: string, links: seq<Link>, s: Search, queue: seq<(string, seq<string>)>,
                           visited: set<string>, table: map<string, seq<string>>) {
    Carried(queue) && s.queue == Paths(queue) && visited == Visited(s.order) && table == s.table &&
    Within(world, links, s) && Explore(world, links, s) == Outcome(world, links)
  }

  lemma TrackingStarts(world: string, links: seq<Link>)
    ensures Tracking(world, links, Start(world), [(world, [world])], {}, map[])
  {
  }

  lemma TrackingAdvances(world: string, links: seq<Link>, s: Search, queue: seq<(string, seq<string>)>,
                         visited: set<string>, table: map<string, seq<string>>)
    requires Tracking(world, links, s, queue, visited, table) && queue != []
    ensures s.queue != [] && queue[0].0 in Nodes(world, links) && Carried(queue[1..])
    ensures queue[0].0 in visited ==> Tracking(world, links, Dequeue(links, s), queue[1..], visited, table)
  {
    QueueTail(queue);
    assert s.queue[0] in s.queue;
    ExploreSteps(world, links, s);
  }

  lemma TrackingExpands(world: string, links: seq<Link>, s: Search, queue: seq<(string, seq<string>)>, rest: seq<(string, seq<string>)>,
                        visited: set<string>, table: map<string, seq<string>>, table': map<string, seq<string>>)
    requires Tracking(world, links, s, queue, visited, table) && queue != [] && queue[0].0 !in visited && Carried(rest)
    requires var ds := Discovered(links, queue[0].0, visited + {queue[0].0});
      Paths(rest) == Paths(queue[1..]) + Extensions(queue[0].1, ds) && table' == Enter(table, queue[0].1, ds)
    ensures s.queue != []
    ensures Tracking(world, links, Dequeue(links, s), rest, visited + {queue[0].0}, table')
  {
    QueueTail(queue);
    VisitedGrows(s.order, s.queue[0]);
    ExploreSteps(world, links, s);
  }

  lemma TrackingEnds(world: string, links: seq<Link>, s: Search, queue: seq<(string, seq<string>)>,
                     visited: set<string>, table: map<string, seq<string>>)
    requires Tracking(world, links, s, queue, visited, table) && queue == []
    ensures table == Routes(world, links)
  {
  }

  lemma DiscoverNothing(current: string, visited: set<string>)
    ensures Discovered(HealthyLinks([]), current, visited) == []
  {
  }

  ghost function Paths(queue: seq<(string, seq<string>)>): seq<seq<string>> {
    seq(|queue|, i requires 0 <= i < |queue| => queue[i].1)
  }

  /** Each queue entry pairs a walk with its end. */
  ghost predicate Carried(queue: seq<(string, seq<string>)>) {
    forall i :: 0 <= i < |queue| ==> queue[i].1 != [] && queue[i].0 == End(queue[i].1)
  }
}
