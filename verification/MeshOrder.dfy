/** Which stored routes are one hop too long, read off the healthy links alone.

    The search takes nodes from its queue in the order of their first walks: the shortest walks
    that follow the earliest links. */
module MeshOrder {
  import opened Prelude
  import opened MeshRouting

  // ----- The order of walks -----

  function Rank(links: seq<Link>, a: string, b: string): int {
    Find(links, Link(a, b))
  }

  function Front(p: seq<string>): seq<string>
    requires p != []
  {
    p[..|p| - 1]
  }

  /** Of two walks of one length, `p` follows the earlier link where they part. */
  ghost predicate Earlier(links: seq<Link>, p: seq<string>, q: seq<string>)
    decreases |p|
  {
    |p| == |q| > 1 &&
    (Earlier(links, Front(p), Front(q)) ||
     (Front(p) == Front(q) && Rank(links, End(Front(p)), End(p)) < Rank(links, End(Front(q)), End(q))))
  }

  ghost predicate Precedes(links: seq<Link>, p: seq<string>, q: seq<string>) {
    |p| < |q| || Earlier(links, p, q)
  }

  lemma {:induction false} EarlierIsStrict(links: seq<Link>, p: seq<string>, q: seq<string>)
    ensures !(Earlier(links, p, q) && Earlier(links, q, p)) && !Earlier(links, p, p)
    decreases |p|
  {
    if |p| == |q| && |p| > 1 {
      EarlierIsStrict(links, Front(p), Front(q));
    } else if |p| > 1 {
      EarlierIsStrict(links, Front(p), Front(p));
    }
  }

  lemma {:induction false} EarlierIsTransitive(links: seq<Link>, p: seq<string>, q: seq<string>, r: seq<string>)
    requires Earlier(links, p, q) && Earlier(links, q, r)
    ensures Earlier(links, p, r)
    decreases |p|
  {
    if Earlier(links, Front(p), Front(q)) && Earlier(links, Front(q), Front(r)) {
      EarlierIsTransitive(links, Front(p), Front(q), Front(r));
    }
  }

  lemma EarlierExtends(links: seq<Link>, p: seq<string>, q: seq<string>, v: string, w: string)
    requires p != [] && Earlier(links, p, q)
    ensures Earlier(links, p + [v], q + [w])
  {
    assert Front(p + [v]) == p && Front(q + [w]) == q;
  }

  lemma LaterLinkExtends(links: seq<Link>, p: seq<string>, v: string, w: string)
    requires p != [] && Rank(links, End(p), v) < Rank(links, End(p), w)
    ensures Earlier(links, p + [v], p + [w])
  {
    assert Front(p + [v]) == p && Front(p + [w]) == p;
  }

  /** A shortest walk, and of those the one that follows the earliest links. */
  ghost predicate IsFirst(links: seq<Link>, a: string, v: string, p: seq<string>) {
    IsShortest(links, a, v, p) && forall q :: IsShortest(links, a, v, q) ==> q == p || Earlier(links, p, q)
  }

  lemma FirstIsOne(links: seq<Link>, a: string, v: string, p: seq<string>, q: seq<string>)
    requires IsFirst(links, a, v, p) && IsFirst(links, a, v, q)
    ensures p == q
  {
    EarlierIsStrict(links, p, q);
  }

  // ----- The search keeps to that order -----

  ghost predicate InOrder(links: seq<Link>, ps: seq<seq<string>>) {
    forall i, j :: 0 <= i < j < |ps| ==> Precedes(links, ps[i], ps[j])
  }

  /** Each walk but the first extends one that was dequeued. */
  ghost predicate Parented(order: seq<seq<string>>, ps: seq<seq<string>>) {
    forall p <- ps :: |p| > 1 ==> Front(p) in order
  }

  /** A walk `o` to the same end was dequeued, no later than `p` would be. */
  ghost predicate Forestalled(links: seq<Link>, order: seq<seq<string>>, p: seq<string>) {
    exists o <- order :: End(o) == End(p) && (o == p || Precedes(links, o, p))
  }

  /** Each walk one link beyond a dequeued one is queued, or another was dequeued first. */
  ghost predicate Offered(links: seq<Link>, order: seq<seq<string>>, queue: seq<seq<string>>) {
    forall p, v :: p in order && Link(End(p), v) in links ==> p + [v] in queue || Forestalled(links, order, p + [v])
  }

  ghost predicate Ranked(links: seq<Link>, s: Search) {
    InOrder(links, s.order + s.queue) && Parented(s.order, s.order + s.queue) && Offered(links, s.order, s.queue)
  }

  lemma {:induction false} FindBeforeAppend(links: seq<Link>, l: Link, m: Link)
    requires m in links
    ensures Find(links + [l], m) == Find(links, m)
    decreases |links|
  {
    assert (links + [l])[0] == links[0];
    if links[0] != m {
      assert links == [links[0]] + links[1..];
      FindBeforeAppend(links[1..], l, m);
      assert (links + [l])[1..] == links[1..] + [l];
    }
  }

  lemma FindAppended(links: seq<Link>, l: Link)
    requires l !in links
    ensures Find(links + [l], l) == |links|
  {
    var i := Find(links + [l], l);
    assert (links + [l])[|links|] == l;
    assert forall k :: 0 <= k < |links| ==> (links + [l])[k] == links[k] && links[k] in links;
  }

  /** Discoveries are in the order of the links. */
  lemma {:induction false} DiscoveredInOrder(links: seq<Link>, current: string, visited: set<string>, i: nat, j: nat)
    requires Distinct(links) && i < j < |Discovered(links, current, visited)|
    ensures var ds := Discovered(links, current, visited);
      Rank(links, current, ds[i]) < Rank(links, current, ds[j])
  {
    var n := |links| - 1;
    var front, l := links[..n], links[n];
    var ds, rest := Discovered(links, current, visited), Discovered(front, current, visited);
    assert links == front + [l];
    DiscoveredExactly(front, current, visited);
    assert i < |rest| && ds[i] == rest[i] && rest[i] in rest;
    FindBeforeAppend(front, l, Link(current, ds[i]));
    if j < |rest| {
      assert ds[j] == rest[j] && rest[j] in rest;
      FindBeforeAppend(front, l, Link(current, ds[j]));
      DiscoveredInOrder(front, current, visited, i, j);
    } else {
      assert l == Link(current, ds[j]);
      FindAppended(front, l);
    }
  }

  lemma InOrderDrops(links: seq<Link>, order: seq<seq<string>>, path: seq<string>, rest: seq<seq<string>>)
    requires InOrder(links, order + ([path] + rest))
    ensures InOrder(links, order + rest)
  {
    var a, b := order + ([path] + rest), order + rest;
    forall i, j | 0 <= i < j < |b| ensures Precedes(links, b[i], b[j]) {
      assert b[i] == a[if i < |order| then i else i + 1];
      assert b[j] == a[if j < |order| then j else j + 1];
    }
  }

  lemma InOrderAppends(links: seq<Link>, ps: seq<seq<string>>, ext: seq<seq<string>>)
    requires InOrder(links, ps) && InOrder(links, ext)
    requires forall p, q :: p in ps && q in ext ==> Precedes(links, p, q)
    ensures InOrder(links, ps + ext)
  {
    var all := ps + ext;
    forall i, j | 0 <= i < j < |all| ensures Precedes(links, all[i], all[j]) {
      if i < |ps| <= j {
        assert all[i] in ps && all[j] in ext;
      }
    }
  }

  lemma ParentsAgree(order: seq<seq<string>>, ps: seq<seq<string>>, more: seq<seq<string>>, qs: seq<seq<string>>)
    requires Parented(order, ps) && (forall p <- order :: p in more)
    requires forall q <- qs :: q in ps || (q != [] && Front(q) in more)
    ensures Parented(more, qs)
  {
  }

  lemma RepeatKeepsRanked(links: seq<Link>, s: Search)
    requires Ranked(links, s) && s.queue != [] && End(s.queue[0]) in Visited(s.order)
    ensures Ranked(links, Dequeue(links, s))
  {
    hide InOrder, Precedes;
    var path, rest := s.queue[0], s.queue[1..];
    assert s.queue == [path] + rest;
    InOrderDrops(links, s.order, path, rest);
    assert forall q <- s.order + rest :: q in s.order + s.queue;
    ParentsAgree(s.order, s.order + s.queue, s.order, s.order + rest);
    var o :| o in s.order && End(o) == End(path);
    HeadIsBehind(links, s, o);
    assert Forestalled(links, s.order, path);
  }

  lemma HeadIsBehind(links: seq<Link>, s: Search, o: seq<string>)
    requires InOrder(links, s.order + s.queue) && s.queue != [] && o in s.order
    ensures Precedes(links, o, s.queue[0])
  {
    var i :| 0 <= i < |s.order| && s.order[i] == o;
    var all := s.order + s.queue;
    assert all[i] == o && all[|s.order|] == s.queue[0];
  }

  /** What an expansion adds comes after everything before it. */
  lemma ExtensionsFollow(links: seq<Link>, s: Search, p: seq<string>, d: string)
    requires InOrder(links, s.order + s.queue) && Parented(s.order, s.order + s.queue) && Levelled(s)
    requires s.queue != [] && s.queue[0] != [] && p in s.order + s.queue
    ensures Precedes(links, p, s.queue[0] + [d])
  {
    var path := s.queue[0];
    var all := s.order + s.queue;
    var i :| 0 <= i < |all| && all[i] == p;
    assert all[|s.order|] == path;
    if i > |s.order| {
      assert all[i] == s.queue[i - |s.order|] && all[i] in s.queue;
      if |p| == |path| + 1 {
        HeadIsBehind(links, s, Front(p));
        EarlierExtends(links, Front(p), path, End(p), d);
        assert Front(p) + [End(p)] == p;
      }
    }
  }

  lemma ExtensionsInOrder(links: seq<Link>, path: seq<string>, visited: set<string>)
    requires Distinct(links) && path != []
    ensures InOrder(links, Extensions(path, Discovered(links, End(path), visited)))
  {
    var ds := Discovered(links, End(path), visited);
    var ext := Extensions(path, ds);
    forall i, j | 0 <= i < j < |ext| ensures Precedes(links, ext[i], ext[j]) {
      DiscoveredInOrder(links, End(path), visited, i, j);
      LaterLinkExtends(links, path, ds[i], ds[j]);
    }
  }

  lemma ExpandKeepsInOrder(links: seq<Link>, s: Search)
    requires InOrder(links, s.order + s.queue) && Parented(s.order, s.order + s.queue) && Levelled(s) && Distinct(links)
    requires s.queue != [] && s.queue[0] != [] && End(s.queue[0]) !in Visited(s.order)
    ensures InOrder(links, Dequeue(links, s).order + Dequeue(links, s).queue)
  {
    hide InOrder, Parented, Levelled, Precedes, Distinct, Visited;
    var path, t := s.queue[0], Dequeue(links, s);
    var ext := Extensions(path, Discovered(links, End(path), Visited(s.order) + {End(path)}));
    ExtensionsInOrder(links, path, Visited(s.order) + {End(path)});
    var all := s.order + s.queue;
    forall p, q | p in all && q in ext ensures Precedes(links, p, q) {
      var d :| q == path + [d];
      ExtensionsFollow(links, s, p, d);
    }
    InOrderAppends(links, all, ext);
    MoveHead(s.order, s.queue, ext);
  }

  lemma HeadIsWalk(world: string, links: seq<Link>, s: Search)
    requires Sound(world, links, s) && s.queue != []
    ensures Levelled(s) && s.queue[0] != []
  {
    assert s.queue[0] in s.queue;
  }

  lemma MoveHead(order: seq<seq<string>>, queue: seq<seq<string>>, ext: seq<seq<string>>)
    requires queue != []
    ensures (order + [queue[0]]) + (queue[1..] + ext) == (order + queue) + ext
  {
  }

  lemma ExpandKeepsOffered(links: seq<Link>, s: Search)
    requires Offered(links, s.order, s.queue) && InOrder(links, s.order + s.queue)
    requires s.queue != [] && End(s.queue[0]) !in Visited(s.order)
    ensures Offered(links, Dequeue(links, s).order, Dequeue(links, s).queue)
  {
    hide InOrder, Earlier;
    var path, t := s.queue[0], Dequeue(links, s);
    var visited := Visited(s.order) + {End(path)};
    var ds := Discovered(links, End(path), visited);
    DiscoveredExactly(links, End(path), visited);
    VisitedGrows(s.order, path);
    assert path in t.order;
    forall p, v | p in t.order && Link(End(p), v) in links
      ensures p + [v] in t.queue || Forestalled(links, t.order, p + [v])
    {
      if p in s.order {
        OldOffersStand(links, s, t, path, p, v);
      } else {
        NewOffersStand(links, s, t, ds, v);
      }
    }
  }

  lemma OldOffersStand(links: seq<Link>, s: Search, t: Search, path: seq<string>, p: seq<string>, v: string)
    requires Offered(links, s.order, s.queue) && p in s.order && Link(End(p), v) in links
    requires s.queue != [] && path == s.queue[0] && t.order == s.order + [path]
    requires forall q <- s.queue[1..] :: q in t.queue
    ensures p + [v] in t.queue || Forestalled(links, t.order, p + [v])
  {
    hide Precedes;
    if p + [v] in s.queue {
      assert s.queue == [path] + s.queue[1..];
      if p + [v] == path {
        assert path in t.order;
      }
    } else {
      var o :| o in s.order && End(o) == End(p + [v]) && (o == p + [v] || Precedes(links, o, p + [v]));
      assert o in t.order;
    }
  }

  lemma NewOffersStand(links: seq<Link>, s: Search, t: Search, ds: seq<string>, v: string)
    requires s.queue != [] && InOrder(links, s.order + s.queue) && t.order == s.order + [s.queue[0]]
    requires var path := s.queue[0];
      t.queue == s.queue[1..] + Extensions(path, ds) && (v in ds || v in Visited(s.order) || v == End(path))
    ensures s.queue[0] + [v] in t.queue || Forestalled(links, t.order, s.queue[0] + [v])
  {
    hide InOrder, Earlier;
    var path := s.queue[0];
    if v in ds {
      var i :| 0 <= i < |ds| && ds[i] == v;
      assert Extensions(path, ds)[i] == path + [v];
    } else if v in Visited(s.order) {
      var o :| o in s.order && End(o) == v;
      HeadIsBehind(links, s, o);
      EarlierIsLevel(links, o, path);
      assert o in t.order && |o| < |path + [v]|;
    } else {
      assert path in t.order && |path| < |path + [v]|;
    }
  }

  lemma EarlierIsLevel(links: seq<Link>, p: seq<string>, q: seq<string>)
    requires Precedes(links, p, q)
    ensures |p| <= |q|
  {
  }

  lemma ExpandKeepsParented(links: seq<Link>, s: Search)
    requires Parented(s.order, s.order + s.queue) && s.queue != [] && End(s.queue[0]) !in Visited(s.order)
    ensures Parented(Dequeue(links, s).order, Dequeue(links, s).order + Dequeue(links, s).queue)
  {
    var path, t := s.queue[0], Dequeue(links, s);
    var ext := Extensions(path, Discovered(links, End(path), Visited(s.order) + {End(path)}));
    assert path in t.order;
    forall q | q in t.order + t.queue ensures q in s.order + s.queue || (q != [] && Front(q) in t.order) {
      if q in ext {
        var d :| q == path + [d];
        assert Front(q) == path;
      } else {
        assert q in s.order || q == path || q in s.queue[1..];
      }
    }
    ParentsAgree(s.order, s.order + s.queue, t.order, t.order + t.queue);
  }

  lemma {:induction false} ExploreIsRanked(world: string, links: seq<Link>, s: Search)
    requires Within(world, links, s) && Sound(world, links, s) && Ranked(links, s) && Distinct(links)
    ensures Ranked(links, Explore(world, links, s))
    decreases Nodes(world, links) - Visited(s.order), |s.queue|
  {
    hide Sound, Ranked, Dequeue, Distinct;
    if s.queue != [] {
      DequeueStaysWithin(world, links, s);
      VisitedGrows(s.order, s.queue[0]);
      assert s.queue[0] in s.queue;
      DequeueKeepsRanked(world, links, s);
      DequeueVisits(links, s);
      ExploreIsRanked(world, links, Dequeue(links, s));
    }
  }

  lemma DequeueVisits(links: seq<Link>, s: Search)
    requires s.queue != []
    ensures var t := Dequeue(links, s);
      if End(s.queue[0]) in Visited(s.order) then t.order == s.order && |t.queue| < |s.queue|
      else t.order == s.order + [s.queue[0]]
  {
  }

  lemma DequeueKeepsRanked(world: string, links: seq<Link>, s: Search)
    requires Sound(world, links, s) && Ranked(links, s) && Distinct(links) && s.queue != []
    ensures Sound(world, links, Dequeue(links, s)) && Ranked(links, Dequeue(links, s))
  {
    hide InOrder, Parented, Offered, Dequeue, Sound;
    if End(s.queue[0]) in Visited(s.order) {
      RepeatKeepsSound(world, links, s);
      RepeatKeepsRanked(links, s);
    } else {
      ExpandKeepsSound(world, links, s);
      HeadIsWalk(world, links, s);
      ExpandKeepsInOrder(links, s);
      ExpandKeepsParented(links, s);
      ExpandKeepsOffered(links, s);
    }
  }

  lemma OutcomeIsRanked(world: string, links: seq<Link>)
    requires Distinct(links)
    ensures Ranked(links, Outcome(world, links))
  {
    hide Distinct;
    StartIsSound(world, links);
    assert Start(world).order + Start(world).queue == [[world]];
    ExploreIsRanked(world, links, Start(world));
  }

  // ----- First walks -----

  lemma LastOfWalk(links: seq<Link>, a: string, v: string, q: seq<string>)
    requires IsShortest(links, a, v, q) && |q| > 1
    ensures IsShortest(links, a, End(Front(q)), Front(q)) && Link(End(Front(q)), v) in links
    ensures q == Front(q) + [v]
  {
    var u := End(Front(q));
    PrefixConnects(links, q, |q| - 1);
    forall w | Connects(links, a, u, w) ensures |Front(q)| <= |w| {
      ExtendConnects(links, a, w, v);
    }
  }

  lemma TakenIsShortest(world: string, links: seq<Link>, s: Search, p: seq<string>)
    requires Sound(world, links, s) && p in s.order
    ensures p != [] && IsShortest(links, world, End(p), p) && DistinctEnds(s.order)
  {
    hide Levelled, Fringed, Tabled, Frugal, IsShortest;
  }

  /** No walk one link beyond a dequeued one is left over. */
  lemma NextIsForestalled(links: seq<Link>, s: Search, u: seq<string>, v: string)
    requires Ranked(links, s) && s.queue == [] && u in s.order && Link(End(u), v) in links
    ensures Forestalled(links, s.order, u + [v])
  {
    hide InOrder, Parented, Forestalled;
  }

  /** If `u` is or is earlier than `front`, a walk taken to `v` is or is earlier than `front` and on to `v`. */
  lemma LeastExtends(links: seq<Link>, order: seq<seq<string>>, p: seq<string>, u: seq<string>, front: seq<string>, v: string)
    requires DistinctEnds(order) && p in order && p != [] && End(p) == v
    requires u != [] && Forestalled(links, order, u + [v]) && |p| == |u| + 1
    requires u == front || Earlier(links, u, front)
    ensures p == front + [v] || Earlier(links, p, front + [v])
  {
    hide Earlier, DistinctEnds;
    var o :| o in order && End(o) == v && (o == u + [v] || Precedes(links, o, u + [v]));
    SameEnds(order, o, p);
    if u != front {
      EarlierExtends(links, u, front, v, v);
      if p != u + [v] {
        EarlierIsTransitive(links, p, u + [v], front + [v]);
      }
    }
  }

  lemma ShortestAreLevel(links: seq<Link>, a: string, b: string, p: seq<string>, q: seq<string>)
    requires IsShortest(links, a, b, p) && IsShortest(links, a, b, q)
    ensures |p| == |q| > 0 && p[0] == q[0] == a && End(q) == b && Connects(links, a, b, q)
  {
  }

  /** The walk a node is first taken with is its first walk. */
  lemma {:induction false} DequeuedIsLeast(world: string, links: seq<Link>, s: Search, p: seq<string>, q: seq<string>)
    requires Sound(world, links, s) && Ranked(links, s) && s.queue == []
    requires p in s.order && IsShortest(links, world, End(p), q)
    ensures q == p || Earlier(links, p, q)
    decreases |q|
  {
    hide Sound, Ranked, Earlier, IsShortest, Connects, Visited, Forestalled, DistinctEnds;
    TakenIsShortest(world, links, s, p);
    ShortestAreLevel(links, world, End(p), p, q);
    if |q| == 1 {
      assert q == [q[0]] && p == [p[0]];
    } else {
      LastOfWalk(links, world, End(p), q);
      var front := Front(q);
      var u := TakenTo(world, links, s, front);
      TakenIsShortest(world, links, s, u);
      ShortestAreLevel(links, world, End(u), u, front);
      DequeuedIsLeast(world, links, s, u, front);
      NextIsForestalled(links, s, u, End(p));
      LeastExtends(links, s.order, p, u, front, End(p));
    }
  }

  lemma TakenTo(world: string, links: seq<Link>, s: Search, w: seq<string>) returns (u: seq<string>)
    requires Sound(world, links, s) && s.queue == [] && w != [] && IsShortest(links, world, End(w), w)
    ensures u in s.order && End(u) == End(w)
  {
    hide Sound;
    ReachedIsVisited(world, links, s, w);
    u :| u in s.order && End(u) == End(w);
  }

  lemma SameEnds(order: seq<seq<string>>, o: seq<string>, p: seq<string>)
    requires DistinctEnds(order) && o in order && p in order && End(o) == End(p)
    ensures o == p
  {
    var i :| 0 <= i < |order| && order[i] == o;
    var j :| 0 <= j < |order| && order[j] == p;
  }

  /** The nodes are taken in the order of their first walks. */
  lemma DequeuesAreFirstWalks(world: string, links: seq<Link>, m: nat)
    requires Distinct(links) && m < |Outcome(world, links).order|
    ensures var p := Outcome(world, links).order[m]; IsFirst(links, world, End(p), p)
    ensures forall k :: 0 <= k < m ==> Precedes(links, Outcome(world, links).order[k], Outcome(world, links).order[m])
  {
    var s := Outcome(world, links);
    OutcomeIsSound(world, links);
    OutcomeIsRanked(world, links);
    var p := s.order[m];
    assert p in s.order;
    FirstDequeuesAreShortest(world, links, m);
    forall q | IsShortest(links, world, End(p), q) ensures q == p || Earlier(links, p, q) {
      DequeuedIsLeast(world, links, s, p, q);
    }
    assert s.order + s.queue == s.order;
  }

  /** A node equally far with an earlier first walk has a healthy link to `v`. */
  ghost predicate Overtaken(links: seq<Link>, world: string, v: string) {
    exists u, p, q ::
      IsFirst(links, world, u, p) && IsFirst(links, world, v, q) && Earlier(links, p, q) && Link(u, v) in links
  }

  /** Whether the stored route is one hop too long is decided by the links alone. */
  lemma RouteIsLongExactlyWhenOvertaken(world: string, links: seq<Link>, v: string)
    requires Distinct(links) && v in Routes(world, links)
    ensures !IsShortest(links, world, v, Routes(world, links)[v]) <==> Overtaken(links, world, v)
  {
    hide Outcome, Earlier, IsShortest, Overtaken, Routes, Distinct;
    var m := PositionOf(world, links, v);
    RouteIsLongExactlyWhen(world, links, m);
    LengthsDecide(world, links, v, m);
    if !IsShortest(links, world, v, Routes(world, links)[v]) {
      var k := OvertakerOf(world, links, v, m);
      OvertakenBy(world, links, v, k, m);
    }
    if Overtaken(links, world, v) {
      OvertakerIsBefore(world, links, v, m);
    }
  }

  lemma PositionOf(world: string, links: seq<Link>, v: string) returns (m: nat)
    requires v in Routes(world, links)
    ensures 0 < m < |Outcome(world, links).order| && End(Outcome(world, links).order[m]) == v
  {
    hide Outcome;
    RoutesReachExactly(world, links, v);
    DequeuedIsReachable(world, links, v);
    m :| 0 <= m < |Outcome(world, links).order| && End(Outcome(world, links).order[m]) == v;
    FirstIsWorld(world, links);
  }

  lemma FirstIsWorld(world: string, links: seq<Link>)
    ensures Outcome(world, links).order == [] || Outcome(world, links).order[0] == [world]
  {
    OutcomeIsSound(world, links);
  }

  lemma LengthsDecide(world: string, links: seq<Link>, v: string, m: nat)
    requires v in Routes(world, links)
    requires m < |Outcome(world, links).order| && End(Outcome(world, links).order[m]) == v
    ensures !IsShortest(links, world, v, Routes(world, links)[v]) <==>
            |Routes(world, links)[v]| == |Outcome(world, links).order[m]| + 1
  {
    hide Outcome, Routes;
    var best := RoutesAreNearlyShortest(world, links, v);
    FirstDequeuesAreShortest(world, links, m);
  }

  lemma OvertakerOf(world: string, links: seq<Link>, v: string, m: nat) returns (k: nat)
    requires 0 < m < |Outcome(world, links).order| && End(Outcome(world, links).order[m]) == v
    requires v in Routes(world, links) && |Routes(world, links)[v]| == |Outcome(world, links).order[m]| + 1
    ensures var order := Outcome(world, links).order;
      k < m && |order[k]| == |order[m]| && Link(End(order[k]), v) in links
  {
    hide Outcome;
    RouteIsLongExactlyWhen(world, links, m);
    k :| 0 <= k < m && |Outcome(world, links).order[k]| == |Outcome(world, links).order[m]| &&
         Link(End(Outcome(world, links).order[k]), v) in links;
  }

  lemma OvertakenBy(world: string, links: seq<Link>, v: string, k: nat, m: nat)
    requires Distinct(links) && k < m < |Outcome(world, links).order| && End(Outcome(world, links).order[m]) == v
    requires var order := Outcome(world, links).order; |order[k]| == |order[m]| && Link(End(order[k]), v) in links
    ensures Overtaken(links, world, v)
  {
    hide Outcome, Earlier, IsFirst, Distinct;
    DequeuesAreFirstWalks(world, links, k);
    DequeuesAreFirstWalks(world, links, m);
  }

  lemma OvertakerIsBefore(world: string, links: seq<Link>, v: string, m: nat)
    requires Distinct(links) && 0 < m < |Outcome(world, links).order| && End(Outcome(world, links).order[m]) == v
    requires Overtaken(links, world, v)
    ensures v in Routes(world, links) && |Routes(world, links)[v]| == |Outcome(world, links).order[m]| + 1
  {
    hide Outcome, Earlier, IsFirst, Distinct;
    var u, p, q :| IsFirst(links, world, u, p) && IsFirst(links, world, v, q) && Earlier(links, p, q) && Link(u, v) in links;
    FirstIsWalk(links, world, u, p);
    DequeuedIsReachable(world, links, u);
    var k :| 0 <= k < |Outcome(world, links).order| && End(Outcome(world, links).order[k]) == u;
    DequeuesAreFirstWalks(world, links, k);
    DequeuesAreFirstWalks(world, links, m);
    FirstIsOne(links, world, u, p, Outcome(world, links).order[k]);
    FirstIsOne(links, world, v, q, Outcome(world, links).order[m]);
    EarlierIsStrict(links, p, q);
    EarlierIsStrict(links, q, p);
    EarlierIsLevel(links, p, q);
    EarlierSameLength(links, p, q);
    RouteIsLongExactlyWhen(world, links, m);
    assert k < m;
  }

  lemma FirstIsWalk(links: seq<Link>, a: string, v: string, p: seq<string>)
    requires IsFirst(links, a, v, p)
    ensures Reachable(links, a, v)
  {
  }

  lemma EarlierSameLength(links: seq<Link>, p: seq<string>, q: seq<string>)
    requires Earlier(links, p, q)
    ensures |p| == |q|
  {
  }

  // ----- Links between nodes equally far -----

  ghost predicate EquallyFar(links: seq<Link>, world: string, u: string, v: string) {
    exists p, q :: IsShortest(links, world, u, p) && IsShortest(links, world, v, q) && |p| == |q|
  }

  /** No healthy link joins two different nodes equally far from the world domain. */
  ghost predicate Unlevel(links: seq<Link>, world: string) {
    forall u, v :: u != v && Link(u, v) in links ==> !EquallyFar(links, world, u, v)
  }

  ghost predicate AllShortest(world: string, links: seq<Link>) {
    forall v <- Routes(world, links) :: IsShortest(links, world, v, Routes(world, links)[v])
  }

  ghost predicate BothWays(links: seq<Link>) {
    forall u, v :: Link(u, v) in links ==> Link(v, u) in links
  }

  /** Then every stored route is shortest. */
  lemma UnlevelRoutesAreShortest(world: string, links: seq<Link>)
    requires Unlevel(links, world)
    ensures AllShortest(world, links)
  {
    hide Routes, IsShortest, Unlevel;
    forall v | v in Routes(world, links) ensures IsShortest(links, world, v, Routes(world, links)[v]) {
      if !IsShortest(links, world, v, Routes(world, links)[v]) {
        LongMeansLevel(world, links, v);
        assert false;
      }
    }
  }

  lemma LongMeansLevel(world: string, links: seq<Link>, v: string)
    requires v in Routes(world, links) && !IsShortest(links, world, v, Routes(world, links)[v])
    ensures !Unlevel(links, world)
  {
    hide Outcome, Routes, IsShortest;
    var m := PositionOf(world, links, v);
    LengthsDecide(world, links, v, m);
    var k := OvertakerOf(world, links, v, m);
    DifferentEnds(world, links, k, m);
    FirstDequeuesAreShortest(world, links, k);
    FirstDequeuesAreShortest(world, links, m);
    assert EquallyFar(links, world, End(Outcome(world, links).order[k]), v);
  }

  lemma DifferentEnds(world: string, links: seq<Link>, k: nat, m: nat)
    requires k < m < |Outcome(world, links).order|
    ensures End(Outcome(world, links).order[k]) != End(Outcome(world, links).order[m])
  {
    hide Outcome;
    DequeuedIsReachable(world, links, "");
  }

  /** When each healthy link has its reverse, all stored routes are shortest exactly then. */
  lemma RoutesAreShortestExactlyWhenUnlevel(world: string, links: seq<Link>)
    requires BothWays(links)
    ensures AllShortest(world, links) <==> Unlevel(links, world)
  {
    hide Outcome, Routes, IsShortest, EquallyFar;
    if Unlevel(links, world) {
      UnlevelRoutesAreShortest(world, links);
    }
    if AllShortest(world, links) {
      forall u, v | u != v && Link(u, v) in links ensures !EquallyFar(links, world, u, v) {
        if EquallyFar(links, world, u, v) {
          LevelLinkLengthens(world, links, u, v);
          assert false;
        }
      }
    }
  }

  lemma LevelLinkLengthens(world: string, links: seq<Link>, u: string, v: string)
    requires BothWays(links) && u != v && Link(u, v) in links && EquallyFar(links, world, u, v)
    ensures !AllShortest(world, links)
  {
    hide Outcome, IsShortest, BothWays;
    assert Link(v, u) in links by { Reverse(links, u, v); }
    var k, m := LevelPositions(world, links, u, v);
    var order := Outcome(world, links).order;
    if k < m {
      RouteIsLongExactlyWhen(world, links, m);
      LengthsDecide(world, links, v, m);
    } else {
      RouteIsLongExactlyWhen(world, links, k);
      LengthsDecide(world, links, u, k);
    }
  }

  lemma Reverse(links: seq<Link>, u: string, v: string)
    requires BothWays(links) && Link(u, v) in links
    ensures Link(v, u) in links
  {
  }

  lemma LevelPositions(world: string, links: seq<Link>, u: string, v: string) returns (k: nat, m: nat)
    requires u != v && EquallyFar(links, world, u, v)
    ensures var order := Outcome(world, links).order;
      k < |order| && m < |order| && k != m && End(order[k]) == u && End(order[m]) == v && |order[k]| == |order[m]|
  {
    hide Outcome;
    var p, q :| IsShortest(links, world, u, p) && IsShortest(links, world, v, q) && |p| == |q|;
    DequeuedIsReachable(world, links, u);
    DequeuedIsReachable(world, links, v);
    k :| 0 <= k < |Outcome(world, links).order| && End(Outcome(world, links).order[k]) == u;
    m :| 0 <= m < |Outcome(world, links).order| && End(Outcome(world, links).order[m]) == v;
    FirstDequeuesAreShortest(world, links, k);
    FirstDequeuesAreShortest(world, links, m);
  }
}
