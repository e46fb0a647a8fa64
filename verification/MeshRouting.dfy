/** The breadth-first search that derives the mesh routing table from the healthy links.

    The search tests "visited" when a walk is taken from the queue, not when it is put
    there, so a node that is still queued can be reached again and its table entry
    overwritten.  This module defines the search as a function of the world domain and the
    ordered list of healthy links, and proves what its result means. */
module MeshRouting {
  import opened Prelude

  datatype Link = Link(source: string, destination: string)

  // ----- Walks -----

  function End(p: seq<string>): string {
    if p == [] then "" else p[|p| - 1]
  }

  ghost predicate IsWalk(links: seq<Link>, p: seq<string>) {
    |p| > 0 && forall i :: 0 < i < |p| ==> Link(p[i - 1], p[i]) in links
  }

  ghost predicate Connects(links: seq<Link>, a: string, b: string, p: seq<string>) {
    IsWalk(links, p) && p[0] == a && End(p) == b
  }

  ghost predicate Reachable(links: seq<Link>, a: string, b: string) {
    exists p :: Connects(links, a, b, p)
  }

  ghost predicate IsShortest(links: seq<Link>, a: string, b: string, p: seq<string>) {
    Connects(links, a, b, p) && forall q :: Connects(links, a, b, q) ==> |p| <= |q|
  }

  lemma PrefixConnects(links: seq<Link>, p: seq<string>, k: nat)
    requires IsWalk(links, p) && 0 < k <= |p|
    ensures Connects(links, p[0], p[k - 1], p[..k])
  {
  }

  /** Cutting out the stretch between two visits of one node leaves a walk. */
  lemma CutLoop(links: seq<Link>, p: seq<string>, i: nat, j: nat)
    requires IsWalk(links, p) && i < j < |p| && p[i] == p[j]
    ensures Connects(links, p[0], End(p), p[..i] + p[j..])
  {
    var q := p[..i] + p[j..];
    forall k | 0 < k < |q| ensures Link(q[k - 1], q[k]) in links {
      if k < i {
        assert q[k - 1] == p[k - 1] && q[k] == p[k];
      } else if k == i {
        assert q[k - 1] == p[i - 1] && q[k] == p[j] == p[i];
      } else {
        var m := k - i + j;
        assert q[k - 1] == p[m - 1] && q[k] == p[m];
      }
    }
  }

  lemma ShortestIsSimple(links: seq<Link>, a: string, b: string, p: seq<string>)
    requires IsShortest(links, a, b, p)
    ensures Distinct(p)
  {
    forall i, j | 0 <= i < j < |p| ensures p[i] != p[j] {
      if p[i] == p[j] {
        CutLoop(links, p, i, j);
      }
    }
  }

  // ----- The search -----

  /** `order` holds the walk of each node's first dequeue; the visited set is their ends. */
  datatype Search = Search(
    order: seq<seq<string>>,
    queue: seq<seq<string>>,
    table: map<string, seq<string>>,
    dequeues: nat
  )

  function Visited(order: seq<seq<string>>): set<string> {
    set p | p in order :: End(p)
  }

  /** The destinations of the links that leave `current` for unvisited nodes, in link order. */
  function Discovered(links: seq<Link>, current: string, visited: set<string>): seq<string> {
    if links == [] then [] else
      var rest := Discovered(links[..|links| - 1], current, visited);
      var l := links[|links| - 1];
      if l.source == current && l.destination !in visited then rest + [l.destination] else rest
  }

  function Extensions(path: seq<string>, ds: seq<string>): seq<seq<string>> {
    seq(|ds|, i requires 0 <= i < |ds| => path + [ds[i]])
  }

  function Enter(table: map<string, seq<string>>, path: seq<string>, ds: seq<string>): map<string, seq<string>> {
    table + (map d | d in ds :: path + [d])
  }

  function Dequeue(links: seq<Link>, s: Search): Search
    requires s.queue != []
  {
    var path := s.queue[0];
    if End(path) in Visited(s.order) then
      s.(queue := s.queue[1..], dequeues := s.dequeues + 1)
    else
      var ds := Discovered(links, End(path), Visited(s.order) + {End(path)});
      Search(s.order + [path],
             s.queue[1..] + Extensions(path, ds),
             Enter(s.table, path, ds),
             s.dequeues + 1)
  }

  function Nodes(world: string, links: seq<Link>): set<string> {
    {world} + set l | l in links :: l.destination
  }

  ghost predicate Within(world: string, links: seq<Link>, s: Search) {
    forall p :: p in s.queue ==> End(p) in Nodes(world, links)
  }

  function Explore(world: string, links: seq<Link>, s: Search): Search
    requires Within(world, links, s)
    decreases Nodes(world, links) - Visited(s.order), |s.queue|
  {
    if s.queue == [] then s else
      DequeueStaysWithin(world, links, s);
      VisitedGrows(s.order, s.queue[0]);
      assert End(s.queue[0]) in Nodes(world, links);
      Explore(world, links, Dequeue(links, s))
  }

  function Start(world: string): Search {
    Search([], [[world]], map[], 0)
  }

  function Outcome(world: string, links: seq<Link>): Search {
    Explore(world, links, Start(world))
  }

  function Routes(world: string, links: seq<Link>): map<string, seq<string>> {
    Outcome(world, links).table
  }

  // ----- What one expansion discovers -----

  lemma {:induction false} DiscoveredExactly(links: seq<Link>, current: string, visited: set<string>)
    ensures forall v :: v in Discovered(links, current, visited) <==>
                        Link(current, v) in links && v !in visited
  {
    if links != [] {
      var front, l := links[..|links| - 1], links[|links| - 1];
      DiscoveredExactly(front, current, visited);
      assert links == front + [l];
    }
  }

  lemma VisitedGrows(order: seq<seq<string>>, path: seq<string>)
    ensures Visited(order + [path]) == Visited(order) + {End(path)}
  {
    assert forall p :: p in order + [path] <==> p in order || p == path;
    assert path in order + [path];
  }

  lemma DequeueStaysWithin(world: string, links: seq<Link>, s: Search)
    requires s.queue != [] && Within(world, links, s)
    ensures Within(world, links, Dequeue(links, s))
  {
    var path := s.queue[0];
    var visited := Visited(s.order) + {End(path)};
    DiscoveredExactly(links, End(path), visited);
    forall p | p in Dequeue(links, s).queue ensures End(p) in Nodes(world, links) {
      if p !in s.queue {
        var ds := Discovered(links, End(path), visited);
        assert p in Extensions(path, ds);
        assert Link(End(path), End(p)) in links;
      }
    }
  }

  // ----- The invariant of the search -----

  ghost predicate Sorted(ps: seq<seq<string>>) {
    forall i, j :: 0 <= i < j < |ps| ==> |ps[i]| <= |ps[j]|
  }

  /** Every walk dequeued or queued starts at the world domain and follows healthy links. */
  ghost predicate Walking(world: string, links: seq<Link>, ps: seq<seq<string>>) {
    forall p :: p in ps ==> Connects(links, world, End(p), p)
  }

  /** Dequeued then queued walks have sorted lengths, and queued ones differ by at most one. */
  ghost predicate Levelled(s: Search) {
    Sorted(s.order + s.queue) &&
    forall q :: q in s.queue ==> |q| <= |s.queue[0]| + 1
  }

  ghost predicate DistinctEnds(order: seq<seq<string>>) {
    forall i, j :: 0 <= i < j < |order| ==> End(order[i]) != End(order[j])
  }

  ghost predicate HasWalkTo(queue: seq<seq<string>>, v: string, bound: nat) {
    exists q :: q in queue && End(q) == v && |q| <= bound
  }

  /** A node one link beyond a visited node is visited, or queued at most one hop further. */
  ghost predicate Fringed(links: seq<Link>, s: Search) {
    forall p, v :: p in s.order && Link(End(p), v) in links ==>
      v in Visited(s.order) || HasWalkTo(s.queue, v, |p| + 1)
  }

  ghost predicate FirstsAreShortest(world: string, links: seq<Link>, order: seq<seq<string>>) {
    forall p :: p in order ==> IsShortest(links, world, End(p), p)
  }

  ghost predicate Rooted(world: string, s: Search) {
    if s.order == [] then s.queue == [[world]] else s.order[0] == [world]
  }

  /** The last expansion that discovered `v`, or -1. */
  ghost function LastDiscoverer(links: seq<Link>, order: seq<seq<string>>, v: string): (j: int)
    ensures -1 <= j < |order|
  {
    if order == [] then -1
    else if Link(End(order[|order| - 1]), v) in links && v !in Visited(order) then |order| - 1
    else LastDiscoverer(links, order[..|order| - 1], v)
  }

  /** The table always is the one written by the last discoverer of each node. */
  ghost predicate Tabled(links: seq<Link>, s: Search) {
    forall v ::
      var j := LastDiscoverer(links, s.order, v);
      (v in s.table <==> j >= 0) && (v in s.table ==> s.table[v] == s.order[j] + [v])
  }

  function Leaving(links: seq<Link>, from: set<string>): nat {
    if links == [] then 0 else
      Leaving(links[..|links| - 1], from) + (if links[|links| - 1].source in from then 1 else 0)
  }

  ghost predicate Frugal(links: seq<Link>, s: Search) {
    s.dequeues + |s.queue| <= 1 + Leaving(links, Visited(s.order))
  }

  ghost predicate Sound(world: string, links: seq<Link>, s: Search) {
    Walking(world, links, s.order) && Walking(world, links, s.queue) && Levelled(s) &&
    DistinctEnds(s.order) && Fringed(links, s) && FirstsAreShortest(world, links, s.order) &&
    Rooted(world, s) && Tabled(links, s) && Frugal(links, s)
  }

  // ----- The head of the queue is a shortest walk -----

  lemma FirstUnvisited(p: seq<string>, visited: set<string>) returns (k: nat)
    requires |p| > 0 && p[0] in visited && End(p) !in visited
    ensures 0 < k < |p| && p[k - 1] in visited && p[k] !in visited
  {
    k := 1;
    while p[k] in visited
      invariant 0 < k < |p| && p[k - 1] in visited
      decreases |p| - k
    {
      k := k + 1;
    }
  }

  lemma HeadIsShortest(world: string, links: seq<Link>, s: Search)
    requires Sound(world, links, s) && s.queue != [] && End(s.queue[0]) !in Visited(s.order)
    ensures IsShortest(links, world, End(s.queue[0]), s.queue[0])
  {
    var head := s.queue[0];
    assert head in s.queue;
    forall w | Connects(links, world, End(head), w) ensures |head| <= |w| {
      if s.order != [] {
        assert s.order[0] in s.order && End(s.order[0]) == world;
        var k := FirstUnvisited(w, Visited(s.order));
        var p :| p in s.order && End(p) == w[k - 1];
        PrefixConnects(links, w, k);
        assert |p| <= k;
        assert Link(End(p), w[k]) in links;
        var q :| q in s.queue && End(q) == w[k] && |q| <= |p| + 1;
        HeadIsLeast(s, q);
      }
    }
  }

  lemma HeadIsLeast(s: Search, q: seq<string>)
    requires Levelled(s) && q in s.queue
    ensures |s.queue[0]| <= |q|
  {
    var all := s.order + s.queue;
    var i :| 0 <= i < |s.queue| && s.queue[i] == q;
    assert all[|s.order|] == s.queue[0] && all[|s.order| + i] == q;
  }

  // ----- Each dequeue keeps the invariant -----

  lemma StartIsSound(world: string, links: seq<Link>)
    ensures Sound(world, links, Start(world)) && Within(world, links, Start(world))
  {
  }

  lemma RepeatKeepsLevelled(links: seq<Link>, s: Search)
    requires Levelled(s) && s.queue != [] && End(s.queue[0]) in Visited(s.order)
    ensures Levelled(Dequeue(links, s))
  {
    var t := Dequeue(links, s);
    var a, b := s.order + s.queue, t.order + t.queue;
    forall i, j | 0 <= i < j < |b| ensures |b[i]| <= |b[j]| {
      assert b[i] == a[if i < |s.order| then i else i + 1];
      assert b[j] == a[if j < |s.order| then j else j + 1];
    }
    forall q | q in t.queue ensures |q| <= |t.queue[0]| + 1 {
      HeadIsLeast(s, t.queue[0]);
    }
  }

  lemma RepeatKeepsFringed(links: seq<Link>, s: Search)
    requires Fringed(links, s) && s.queue != [] && End(s.queue[0]) in Visited(s.order)
    ensures Fringed(links, Dequeue(links, s))
  {
    var t := Dequeue(links, s);
    forall p, v | p in t.order && Link(End(p), v) in links && v !in Visited(t.order)
      ensures HasWalkTo(t.queue, v, |p| + 1)
    {
      var q :| q in s.queue && End(q) == v && |q| <= |p| + 1;
      assert q in t.queue;
    }
  }

  lemma RepeatKeepsSound(world: string, links: seq<Link>, s: Search)
    requires Sound(world, links, s) && s.queue != [] && End(s.queue[0]) in Visited(s.order)
    ensures Sound(world, links, Dequeue(links, s))
  {
    RepeatKeepsLevelled(links, s);
    RepeatKeepsFringed(links, s);
  }

  lemma ExpandKeepsWalking(world: string, links: seq<Link>, s: Search)
    requires Walking(world, links, s.order) && Walking(world, links, s.queue)
    requires s.queue != [] && End(s.queue[0]) !in Visited(s.order)
    ensures Walking(world, links, Dequeue(links, s).order)
    ensures Walking(world, links, Dequeue(links, s).queue)
  {
    var path, t := s.queue[0], Dequeue(links, s);
    var visited := Visited(s.order) + {End(path)};
    var ds := Discovered(links, End(path), visited);
    DiscoveredExactly(links, End(path), visited);
    forall p | p in t.queue ensures Connects(links, world, End(p), p) {
      if p !in s.queue {
        assert p in Extensions(path, ds);
        var d :| d in ds && p == path + [d];
        assert Connects(links, world, End(path), path);
        forall i | 0 < i < |p| ensures Link(p[i - 1], p[i]) in links {
          if i == |path| {
            assert p[i - 1] == End(path);
          } else {
            assert p[i - 1] == path[i - 1] && p[i] == path[i];
          }
        }
      }
    }
  }

  /** Adding walks one hop longer than the head behind the queue keeps it sorted. */
  lemma AppendKeepsSorted(front: seq<seq<string>>, ext: seq<seq<string>>, n: nat)
    requires Sorted(front) && (forall p :: p in front ==> |p| <= n) && (forall p :: p in ext ==> |p| == n)
    ensures Sorted(front + ext)
  {
    var all := front + ext;
    forall i, j | 0 <= i < j < |all| ensures |all[i]| <= |all[j]| {
      if j < |front| {
        assert all[i] == front[i] && all[j] == front[j];
      } else {
        assert all[j] in ext && (all[i] in front || all[i] in ext);
      }
    }
  }

  lemma ExpandKeepsLevelled(links: seq<Link>, s: Search)
    requires Levelled(s) && s.queue != [] && End(s.queue[0]) !in Visited(s.order)
    ensures Levelled(Dequeue(links, s))
  {
    var path := s.queue[0];
    var ext := Extensions(path, Discovered(links, End(path), Visited(s.order) + {End(path)}));
    assert forall p :: p in ext ==> |p| == |path| + 1;
    assert s.queue == [path] + s.queue[1..];
    QueueStaysLevelled(s.order, path, s.queue[1..], ext);
  }

  lemma QueueStaysLevelled(order: seq<seq<string>>, path: seq<string>, rest: seq<seq<string>>, ext: seq<seq<string>>)
    requires Sorted(order + ([path] + rest)) && (forall q :: q in rest ==> |q| <= |path| + 1)
    requires forall p :: p in ext ==> |p| == |path| + 1
    ensures Sorted((order + [path]) + (rest + ext))
    ensures forall q :: q in rest + ext ==> |q| <= |(rest + ext)[0]| + 1
  {
    var front := order + ([path] + rest);
    assert front[|order|] == path;
    forall p | p in front ensures |p| <= |path| + 1 {
      if p in order {
        var i :| 0 <= i < |order| && order[i] == p;
        assert front[i] == p;
      }
    }
    AppendKeepsSorted(front, ext, |path| + 1);
    assert (order + [path]) + (rest + ext) == front + ext;
    if rest != [] {
      assert front[|order| + 1] == rest[0];
    }
  }

  lemma ExpandKeepsFringed(links: seq<Link>, s: Search)
    requires Fringed(links, s) && s.queue != [] && End(s.queue[0]) !in Visited(s.order)
    ensures Fringed(links, Dequeue(links, s))
  {
    var path, t := s.queue[0], Dequeue(links, s);
    var visited := Visited(s.order) + {End(path)};
    var ds := Discovered(links, End(path), visited);
    DiscoveredExactly(links, End(path), visited);
    VisitedGrows(s.order, path);
    forall p, v | p in t.order && Link(End(p), v) in links && v !in Visited(t.order)
      ensures HasWalkTo(t.queue, v, |p| + 1)
    {
      if p in s.order {
        var q :| q in s.queue && End(q) == v && |q| <= |p| + 1;
        assert q in t.queue;
      } else {
        assert p == path && v in ds;
        var i :| 0 <= i < |ds| && ds[i] == v;
        assert Extensions(path, ds)[i] == path + [v];
        assert path + [v] in t.queue && End(path + [v]) == v;
      }
    }
  }

  lemma ExpandKeepsTabled(links: seq<Link>, s: Search)
    requires Tabled(links, s) && s.queue != [] && End(s.queue[0]) !in Visited(s.order)
    ensures Tabled(links, Dequeue(links, s))
  {
    var path, t := s.queue[0], Dequeue(links, s);
    var visited := Visited(s.order) + {End(path)};
    DiscoveredExactly(links, End(path), visited);
    VisitedGrows(s.order, path);
    assert t.order[..|t.order| - 1] == s.order;
  }

  lemma {:induction false} LeavingGrows(links: seq<Link>, current: string, from: set<string>, visited: set<string>)
    requires current !in from
    ensures Leaving(links, from) + |Discovered(links, current, visited)| <= Leaving(links, from + {current})
  {
    if links != [] {
      LeavingGrows(links[..|links| - 1], current, from, visited);
    }
  }

  lemma ExpandKeepsSound(world: string, links: seq<Link>, s: Search)
    requires Sound(world, links, s) && s.queue != [] && End(s.queue[0]) !in Visited(s.order)
    ensures Sound(world, links, Dequeue(links, s))
  {
    var path, t := s.queue[0], Dequeue(links, s);
    ExpandKeepsWalking(world, links, s);
    ExpandKeepsLevelled(links, s);
    ExpandKeepsFringed(links, s);
    ExpandKeepsTabled(links, s);
    VisitedGrows(s.order, path);
    LeavingGrows(links, End(path), Visited(s.order), Visited(t.order));
    HeadIsShortest(world, links, s);
    forall i, j | 0 <= i < j < |t.order| ensures End(t.order[i]) != End(t.order[j]) {
      assert t.order[i] in s.order;
    }
  }

  lemma {:induction false} ExploreIsSound(world: string, links: seq<Link>, s: Search)
    requires Within(world, links, s) && Sound(world, links, s)
    ensures Sound(world, links, Explore(world, links, s)) && Explore(world, links, s).queue == []
    decreases Nodes(world, links) - Visited(s.order), |s.queue|
  {
    if s.queue != [] {
      DequeueStaysWithin(world, links, s);
      VisitedGrows(s.order, s.queue[0]);
      assert End(s.queue[0]) in Nodes(world, links);
      if End(s.queue[0]) in Visited(s.order) {
        RepeatKeepsSound(world, links, s);
      } else {
        ExpandKeepsSound(world, links, s);
      }
      ExploreIsSound(world, links, Dequeue(links, s));
    }
  }

  // ----- What the finished search means -----

  /** Every node reached by a healthy walk has been dequeued. */
  lemma {:induction false} ReachedIsVisited(world: string, links: seq<Link>, s: Search, w: seq<string>)
    requires Sound(world, links, s) && s.queue == [] && Connects(links, world, End(w), w)
    ensures End(w) in Visited(s.order)
    decreases |w|
  {
    if |w| == 1 {
      assert s.order[0] in s.order && End(s.order[0]) == world;
    } else {
      var front := w[..|w| - 1];
      PrefixConnects(links, w, |front|);
      ReachedIsVisited(world, links, s, front);
      var p :| p in s.order && End(p) == End(front);
      assert Link(End(p), End(w)) in links;
    }
  }

  ghost predicate Discovers(links: seq<Link>, order: seq<seq<string>>, v: string, j: int) {
    0 <= j < |order| && Link(End(order[j]), v) in links && v !in Visited(order[..j + 1])
  }

  /** `LastDiscoverer` is the greatest index that discovers `v`. */
  lemma {:induction false} LastDiscovererIsLast(links: seq<Link>, order: seq<seq<string>>, v: string)
    ensures LastDiscoverer(links, order, v) >= 0 ==> Discovers(links, order, v, LastDiscoverer(links, order, v))
    ensures forall j :: Discovers(links, order, v, j) ==> j <= LastDiscoverer(links, order, v)
  {
    if order != [] {
      var n := |order| - 1;
      LastDiscovererIsLast(links, order[..n], v);
      var last := LastDiscoverer(links, order[..n], v);
      assert last >= 0 ==> order[..n][..last + 1] == order[..last + 1];
      assert order[..n + 1] == order;
      forall j | Discovers(links, order, v, j) ensures j <= LastDiscoverer(links, order, v) {
        if j < n {
          assert order[..n][..j + 1] == order[..j + 1];
          assert Discovers(links, order[..n], v, j);
        }
      }
    }
  }

  /** A node is unvisited exactly before its own first dequeue. */
  lemma UnvisitedBefore(order: seq<seq<string>>, m: nat, j: nat)
    requires DistinctEnds(order) && m < |order| && j < |order|
    ensures End(order[m]) !in Visited(order[..j + 1]) <==> j < m
  {
    if m <= j {
      assert order[..j + 1][m] == order[m];
      assert order[m] in order[..j + 1];
    }
  }

  /** The tables' keys are the nodes other than the world domain that were dequeued. */
  lemma KeysAreVisited(world: string, links: seq<Link>, s: Search, v: string)
    requires Sound(world, links, s) && s.queue == []
    ensures v in s.table <==> v != world && v in Visited(s.order)
  {
    LastDiscovererIsLast(links, s.order, v);
    var j := LastDiscoverer(links, s.order, v);
    if v in s.table {
      assert s.order[..j + 1][0] == [world];
      assert s.order[j] in s.order;
      assert [world] in s.order[..j + 1];
    }
    if v != world && v in Visited(s.order) {
      var m, k := Predecessor(world, links, s, v);
      UnvisitedBefore(s.order, m, k);
      assert Discovers(links, s.order, v, k);
    }
  }

  lemma OrderIsSorted(s: Search)
    requires Levelled(s)
    ensures Sorted(s.order)
  {
    forall i, j | 0 <= i < j < |s.order| ensures |s.order[i]| <= |s.order[j]| {
      assert (s.order + s.queue)[i] == s.order[i] && (s.order + s.queue)[j] == s.order[j];
    }
  }

  lemma IndexOf(ps: seq<seq<string>>, p: seq<string>) returns (i: nat)
    requires p in ps
    ensures i < |ps| && ps[i] == p
  {
    i :| 0 <= i < |ps| && ps[i] == p;
  }

  /** A dequeued node other than the world domain is linked from one dequeued earlier, one
      hop nearer. */
  lemma Predecessor(world: string, links: seq<Link>, s: Search, v: string) returns (m: nat, k: nat)
    requires Sound(world, links, s) && s.queue == [] && v != world && v in Visited(s.order)
    ensures k < m < |s.order| && End(s.order[m]) == v && Link(End(s.order[k]), v) in links
  {
    var p :| p in s.order && End(p) == v;
    var u := ShortestPredecessor(world, links, s, p);
    OrderIsSorted(s);
    m := IndexOf(s.order, p);
    k := IndexOf(s.order, u);
  }

  lemma ShortestPredecessor(world: string, links: seq<Link>, s: Search, p: seq<string>) returns (u: seq<string>)
    requires Sound(world, links, s) && s.queue == [] && p in s.order && End(p) != world
    ensures u in s.order && |u| < |p| && Link(End(u), End(p)) in links
  {
    var front := p[..|p| - 1];
    PrefixConnects(links, p, |front|);
    ReachedIsVisited(world, links, s, front);
    u :| u in s.order && End(u) == End(front);
  }

  /** The table's route to the node dequeued m-th extends the walk of the last node before it
      that links to it. */
  lemma RouteShape(world: string, links: seq<Link>, s: Search, m: nat) returns (j: nat)
    requires Sound(world, links, s) && s.queue == [] && 0 < m < |s.order|
    ensures End(s.order[m]) in s.table
    ensures j < m && Link(End(s.order[j]), End(s.order[m])) in links
    ensures s.table[End(s.order[m])] == s.order[j] + [End(s.order[m])]
    ensures |s.order[j]| <= |s.order[m]| <= |s.order[j]| + 1
    ensures forall k :: j < k < m ==> Link(End(s.order[k]), End(s.order[m])) !in links
  {
    var v := End(s.order[m]);
    assert s.order[0] in s.order && s.order[m] in s.order;
    assert End(s.order[0]) == world;
    KeysAreVisited(world, links, s, v);
    LastDiscovererIsLast(links, s.order, v);
    j := LastDiscoverer(links, s.order, v);
    UnvisitedBefore(s.order, m, j);
    forall k | j < k < m ensures Link(End(s.order[k]), v) !in links {
      UnvisitedBefore(s.order, m, k);
      assert !Discovers(links, s.order, v, k);
    }
    OrderIsSorted(s);
    assert s.order[j] in s.order;
    ExtendConnects(links, world, s.order[j], v);
  }

  lemma ExtendConnects(links: seq<Link>, a: string, p: seq<string>, v: string)
    requires Connects(links, a, End(p), p) && Link(End(p), v) in links
    ensures Connects(links, a, v, p + [v])
  {
    var q := p + [v];
    forall i | 0 < i < |q| ensures Link(q[i - 1], q[i]) in links {
      if i < |p| {
        assert q[i - 1] == p[i - 1] && q[i] == p[i];
      }
    }
  }

  // ----- Main results -----

  lemma OutcomeIsSound(world: string, links: seq<Link>)
    ensures Sound(world, links, Outcome(world, links)) && Outcome(world, links).queue == []
  {
    StartIsSound(world, links);
    ExploreIsSound(world, links, Start(world));
  }

  /** The walk carried by a node's first dequeue is exactly shortest. */
  lemma FirstDequeuesAreShortest(world: string, links: seq<Link>, m: nat)
    requires m < |Outcome(world, links).order|
    ensures var p := Outcome(world, links).order[m]; IsShortest(links, world, End(p), p)
  {
    OutcomeIsSound(world, links);
    assert Outcome(world, links).order[m] in Outcome(world, links).order;
  }

  /** Each reachable node is dequeued for the first time exactly once. */
  lemma DequeuedIsReachable(world: string, links: seq<Link>, v: string)
    ensures Reachable(links, world, v) <==>
            exists m :: 0 <= m < |Outcome(world, links).order| && End(Outcome(world, links).order[m]) == v
    ensures DistinctEnds(Outcome(world, links).order)
  {
    OutcomeIsSound(world, links);
    var s := Outcome(world, links);
    if Reachable(links, world, v) {
      var w :| Connects(links, world, v, w);
      ReachedIsVisited(world, links, s, w);
      var p :| p in s.order && End(p) == v;
    }
    forall m | 0 <= m < |s.order| ensures Reachable(links, world, End(s.order[m])) {
      assert s.order[m] in s.order;
    }
  }

  /** The table's keys are exactly the nodes other than the world domain that are reachable. */
  lemma RoutesReachExactly(world: string, links: seq<Link>, v: string)
    ensures v in Routes(world, links) <==> v != world && Reachable(links, world, v)
  {
    OutcomeIsSound(world, links);
    DequeuedIsReachable(world, links, v);
    var s := Outcome(world, links);
    KeysAreVisited(world, links, s, v);
    assert forall m :: 0 <= m < |s.order| ==> s.order[m] in s.order;
  }

  /** Every stored route is a repetition-free healthy walk from the world domain, at most one
      hop longer than a shortest one. */
  lemma RoutesAreNearlyShortest(world: string, links: seq<Link>, v: string) returns (best: seq<string>)
    requires v in Routes(world, links)
    ensures Connects(links, world, v, Routes(world, links)[v])
    ensures Distinct(Routes(world, links)[v])
    ensures IsShortest(links, world, v, best)
    ensures |best| <= |Routes(world, links)[v]| <= |best| + 1
  {
    hide Outcome;
    OutcomeIsSound(world, links);
    var s := Outcome(world, links);
    KeysAreVisited(world, links, s, v);
    best :| best in s.order && End(best) == v;
    var m :| 0 <= m < |s.order| && s.order[m] == best;
    assert s.order[0] == [world];
    var j := RouteShape(world, links, s, m);
    var u := s.order[j];
    assert u in s.order;
    ExtendConnects(links, world, u, v);
    assert v != End(u);
    ExtensionIsSimple(world, links, u, v, best);
  }

  lemma ExtensionIsSimple(world: string, links: seq<Link>, u: seq<string>, v: string, best: seq<string>)
    requires IsShortest(links, world, End(u), u) && IsShortest(links, world, v, best)
    requires v != End(u) && |u| <= |best|
    ensures Distinct(u + [v])
  {
    ShortestIsSimple(links, world, End(u), u);
    forall i | 0 <= i < |u| ensures u[i] != v {
      if u[i] == v {
        PrefixConnects(links, u, i + 1);
      }
    }
  }

  /** A stored route is one hop too long exactly when some node equally far from the world
      domain, and dequeued earlier, has a healthy link to its end. */
  lemma RouteIsLongExactlyWhen(world: string, links: seq<Link>, m: nat)
    requires 0 < m < |Outcome(world, links).order|
    ensures var s := Outcome(world, links); var v := End(s.order[m]);
      v in s.table &&
      (|s.table[v]| == |s.order[m]| + 1 <==>
       exists k :: 0 <= k < m && |s.order[k]| == |s.order[m]| && Link(End(s.order[k]), v) in links)
  {
    OutcomeIsSound(world, links);
    LongExactlyWhen(world, links, Outcome(world, links), m);
  }

  lemma LongExactlyWhen(world: string, links: seq<Link>, s: Search, m: nat)
    requires Sound(world, links, s) && s.queue == [] && 0 < m < |s.order|
    ensures var v := End(s.order[m]);
      v in s.table &&
      (|s.table[v]| == |s.order[m]| + 1 <==>
       exists k :: 0 <= k < m && |s.order[k]| == |s.order[m]| && Link(End(s.order[k]), v) in links)
  {
    var v := End(s.order[m]);
    var j := RouteShape(world, links, s, m);
    OrderIsSorted(s);
    LatestLinkDecides(links, s.order, v, m, j);
  }

  lemma LatestLinkDecides(links: seq<Link>, order: seq<seq<string>>, v: string, m: nat, j: nat)
    requires Sorted(order) && j < m < |order| && Link(End(order[j]), v) in links
    requires forall k :: j < k < m ==> Link(End(order[k]), v) !in links
    ensures |order[j]| == |order[m]| <==>
            exists k :: 0 <= k < m && |order[k]| == |order[m]| && Link(End(order[k]), v) in links
  {
    forall k | 0 <= k < m && |order[k]| == |order[m]| && Link(End(order[k]), v) in links
      ensures |order[j]| == |order[m]|
    {
      assert k <= j;
    }
  }

  /** The stored routes need not be shortest: with links w->a, w->b, a->b the route to b is
      w, a, b although w links to b. */
  lemma StoredRouteCanBeLong(w: string, a: string, b: string)
    requires w != a && w != b && a != b
    ensures b in Routes(w, Triangle(w, a, b)) && Routes(w, Triangle(w, a, b))[b] == [w, a, b]
    ensures Connects(Triangle(w, a, b), w, b, [w, b])
  {
    hide Outcome;
    TriangleOutcome(w, a, b);
    TriangleLinks(w, a, b);
  }

  lemma TriangleLinks(w: string, a: string, b: string)
    ensures Connects(Triangle(w, a, b), w, b, [w, b])
  {
    assert Triangle(w, a, b)[1] == Link(w, b);
  }

  lemma TriangleOutcome(w: string, a: string, b: string)
    requires w != a && w != b && a != b
    ensures Outcome(w, Triangle(w, a, b)) == Stage4(w, a, b)
  {
    hide Dequeue, Explore, Sound, Triangle;
    StartIsSound(w, Triangle(w, a, b));
    ExpandRoot(w, a, b);
    ExpandNear(w, a, b);
    ExpandFar(w, a, b);
    SkipRepeat(w, a, b);
    ExploreInFour(w, Triangle(w, a, b), Stage0(w, a, b), Stage1(w, a, b), Stage2(w, a, b), Stage3(w, a, b), Stage4(w, a, b));
  }

  ghost function Triangle(w: string, a: string, b: string): seq<Link> {
    [Link(w, a), Link(w, b), Link(a, b)]
  }

  ghost function Stage0(w: string, a: string, b: string): Search {
    Search([], [[w]], map[], 0)
  }

  ghost function Stage1(w: string, a: string, b: string): Search {
    Search([[w]], [[w, a], [w, b]], map[a := [w, a], b := [w, b]], 1)
  }

  ghost function Stage2(w: string, a: string, b: string): Search {
    Search([[w], [w, a]], [[w, b], [w, a, b]], map[a := [w, a], b := [w, a, b]], 2)
  }

  ghost function Stage3(w: string, a: string, b: string): Search {
    Search([[w], [w, a], [w, b]], [[w, a, b]], map[a := [w, a], b := [w, a, b]], 3)
  }

  ghost function Stage4(w: string, a: string, b: string): Search {
    Search([[w], [w, a], [w, b]], [], map[a := [w, a], b := [w, a, b]], 4)
  }

  lemma TriangleDiscoveries(w: string, a: string, b: string)
    requires w != a && w != b && a != b
    ensures Discovered(Triangle(w, a, b), w, {w}) == [a, b]
    ensures Discovered(Triangle(w, a, b), a, {w, a}) == [b]
    ensures Discovered(Triangle(w, a, b), b, {w, a, b}) == []
  {
    DiscoveredOfThree(Triangle(w, a, b), w, {w});
    DiscoveredOfThree(Triangle(w, a, b), a, {w, a});
    DiscoveredOfThree(Triangle(w, a, b), b, {w, a, b});
  }

  lemma TriangleExtensions(w: string, a: string, b: string)
    ensures [w] + [a] == [w, a] && [w] + [b] == [w, b] && [w, a] + [b] == [w, a, b]
    ensures Extensions([w], [a, b]) == [[w, a], [w, b]]
    ensures Extensions([w, a], [b]) == [[w, a, b]]
  {
    assert [w] + [a] == [w, a] && [w] + [b] == [w, b] && [w, a] + [b] == [w, a, b];
  }

  lemma ExpandRoot(w: string, a: string, b: string)
    requires w != a && w != b && a != b
    ensures Dequeue(Triangle(w, a, b), Stage0(w, a, b)) == Stage1(w, a, b)
  {
    TriangleDiscoveries(w, a, b);
    TriangleExtensions(w, a, b);
    assert Visited([]) + {w} == {w};
    assert Enter(map[], [w], [a, b]) == map[a := [w, a], b := [w, b]];
  }

  lemma ExpandNear(w: string, a: string, b: string)
    requires w != a && w != b && a != b
    ensures Dequeue(Triangle(w, a, b), Stage1(w, a, b)) == Stage2(w, a, b)
  {
    TriangleDiscoveries(w, a, b);
    TriangleExtensions(w, a, b);
    assert Visited([[w]]) == {w} by { assert [w] in [[w]]; }
    assert {w} + {a} == {w, a};
    assert Enter(Stage1(w, a, b).table, [w, a], [b]) == Stage2(w, a, b).table;
  }

  lemma ExpandFar(w: string, a: string, b: string)
    requires w != a && w != b && a != b
    ensures Dequeue(Triangle(w, a, b), Stage2(w, a, b)) == Stage3(w, a, b)
  {
    TriangleDiscoveries(w, a, b);
    var order := [[w], [w, a]];
    assert Visited(order) == {w, a} by { assert [w] in order && [w, a] in order; }
    assert {w, a} + {b} == {w, a, b};
    assert Enter(Stage2(w, a, b).table, [w, b], []) == Stage3(w, a, b).table;
  }

  lemma SkipRepeat(w: string, a: string, b: string)
    ensures Dequeue(Triangle(w, a, b), Stage3(w, a, b)) == Stage4(w, a, b)
  {
    assert [w, b] in Stage3(w, a, b).order;
  }

  lemma ExploreInFour(world: string, links: seq<Link>, s0: Search, s1: Search, s2: Search, s3: Search, s4: Search)
    requires Within(world, links, s0)
    requires s0.queue != [] && s1.queue != [] && s2.queue != [] && s3.queue != [] && s4.queue == []
    requires Dequeue(links, s0) == s1 && Dequeue(links, s1) == s2 && Dequeue(links, s2) == s3 && Dequeue(links, s3) == s4
    ensures Explore(world, links, s0) == s4
  {
    ExploreSteps(world, links, s0);
    ExploreSteps(world, links, s1);
    ExploreSteps(world, links, s2);
    ExploreSteps(world, links, s3);
  }

  lemma ExploreSteps(world: string, links: seq<Link>, s: Search)
    requires Within(world, links, s) && s.queue != []
    ensures Within(world, links, Dequeue(links, s))
    ensures Explore(world, links, s) == Explore(world, links, Dequeue(links, s))
  {
    DequeueStaysWithin(world, links, s);
  }

  lemma DiscoveredOfThree(links: seq<Link>, current: string, visited: set<string>)
    requires |links| == 3
    ensures Discovered(links, current, visited) ==
            Keep(links[0], current, visited) + Keep(links[1], current, visited) + Keep(links[2], current, visited)
  {
    assert links[..2][..1] == links[..1] && links[..1][..0] == [];
    assert Discovered(links[..1], current, visited) == Keep(links[0], current, visited);
    assert Discovered(links[..2], current, visited) == Keep(links[0], current, visited) + Keep(links[1], current, visited);
  }

  ghost function Keep(l: Link, current: string, visited: set<string>): seq<string> {
    if l.source == current && l.destination !in visited then [l.destination] else []
  }

  /** Each rebuild takes at most one walk from the queue per healthy link, and the first. */
  lemma RebuildIsBounded(world: string, links: seq<Link>)
    ensures Outcome(world, links).dequeues <= 1 + |links|
  {
    OutcomeIsSound(world, links);
    LeavingIsBounded(links, Visited(Outcome(world, links).order));
  }

  lemma {:induction false} LeavingIsBounded(links: seq<Link>, from: set<string>)
    ensures Leaving(links, from) <= |links|
  {
    if links != [] {
      LeavingIsBounded(links[..|links| - 1], from);
    }
  }
}
