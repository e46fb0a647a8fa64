/** The registry of domains: parent pointers and child lists kept in step, and the tree
    that a recursive reader builds from them. */
module DomainRegistry {
  import opened Prelude

  datatype DomainState = Uninitialized | Initializing | Active | Syncing | Degraded | Recovering | Suspended | Shutdown
  datatype DomainTier = World | Region | Zone | Entity

  // ----- The forest of domains -----

  datatype Record = Record(name: string, tier: DomainTier, state: DomainState, parent: Option<string>)

  /** `issued` lists every domain id ever handed out, in order; `records` the registered ones. */
  datatype Forest = Forest(issued: seq<string>, records: map<string, Record>, world: Option<string>)

  /** The registered domains that name `p` as their parent, in registration order. */
  ghost function Children(records: map<string, Record>, issued: seq<string>, p: string): seq<string> {
    if issued == [] then [] else
      var rest := Children(records, issued[..|issued| - 1], p);
      var c := issued[|issued| - 1];
      if c in records && records[c].parent == Some(p) then rest + [c] else rest
  }

  /** Ids are never reused, and a parent that was ever registered was so before its child. */
  ghost predicate WellFormed(f: Forest) {
    Distinct(f.issued) && "" !in f.issued &&
    (forall d :: d in f.records ==> d in f.issued) &&
    (f.world.Some? ==> f.world.value in f.issued) &&
    forall d, p :: d in f.records && f.records[d].parent == Some(p) && p in f.issued ==>
      Find(f.issued, p) < Find(f.issued, d)
  }

  /** A fresh id: never issued, and named by nobody. */
  ghost predicate Fresh(f: Forest, id: string) {
    id != "" && id !in f.issued && forall d :: d in f.records ==> f.records[d].parent != Some(id)
  }

  ghost function Register(f: Forest, id: string, name: string, tier: DomainTier, parent: Option<string>): Forest {
    Forest(f.issued + [id],
           f.records[id := Record(name, tier, Uninitialized, parent)],
           if tier.World? then Some(id) else f.world)
  }

  ghost function Unregister(f: Forest, id: string): Forest {
    f.(records := f.records - {id})
  }

  ghost function SetState(f: Forest, id: string, state: DomainState): Forest
    requires id in f.records
  {
    f.(records := f.records[id := f.records[id].(state := state)])
  }

  lemma {:induction false} FindInPrefix(s: seq<string>, x: string, y: string)
    requires x in s
    ensures Find(s + [y], x) == Find(s, x)
  {
    if s[0] != x {
      assert (s + [y])[1..] == s[1..] + [y];
      FindInPrefix(s[1..], x, y);
    }
  }

  lemma FindLast(s: seq<string>, y: string)
    requires y !in s
    ensures Find(s + [y], y) == |s|
  {
    assert (s + [y])[|s|] == y;
  }

  lemma NoEmptyName(f: Forest)
    requires WellFormed(f)
    ensures "" !in f.records
  {
  }

  lemma RegisterKeepsWellFormed(f: Forest, id: string, name: string, tier: DomainTier, parent: Option<string>)
    requires WellFormed(f) && Fresh(f, id) && parent != Some(id)
    ensures WellFormed(Register(f, id, name, tier, parent))
  {
    var g := Register(f, id, name, tier, parent);
    FindLast(f.issued, id);
    forall d, p | d in g.records && g.records[d].parent == Some(p) && p in g.issued
      ensures Find(g.issued, p) < Find(g.issued, d)
    {
      FindInPrefix(f.issued, p, id);
      if d != id {
        FindInPrefix(f.issued, d, id);
      }
    }
  }

  // ----- How the child lists follow -----

  lemma {:induction false} ChildrenExactly(records: map<string, Record>, issued: seq<string>, p: string)
    requires Distinct(issued)
    ensures Distinct(Children(records, issued, p))
    ensures forall c :: c in Children(records, issued, p) <==>
                        c in issued && c in records && records[c].parent == Some(p)
  {
    if issued != [] {
      var front, c := issued[..|issued| - 1], issued[|issued| - 1];
      ChildrenExactly(records, front, p);
      assert issued == front + [c];
    }
  }

  /** A record that does not name `p` as its parent is not on `p`'s list. */
  lemma {:induction false} ChildrenIgnore(records: map<string, Record>, others: map<string, Record>, issued: seq<string>, p: string)
    requires forall c :: c in issued ==>
      (c in records && records[c].parent == Some(p) <==> c in others && others[c].parent == Some(p))
    ensures Children(records, issued, p) == Children(others, issued, p)
  {
    if issued != [] {
      var front := issued[..|issued| - 1];
      assert issued[|issued| - 1] in issued;
      assert forall c :: c in front ==> c in issued;
      ChildrenIgnore(records, others, front, p);
    }
  }

  lemma RegisteredChildren(f: Forest, id: string, name: string, tier: DomainTier, parent: Option<string>, p: string)
    requires WellFormed(f) && Fresh(f, id) && parent != Some(id)
    ensures var g := Register(f, id, name, tier, parent);
      Children(g.records, g.issued, p) ==
      if parent == Some(p) then Children(f.records, f.issued, p) + [id] else Children(f.records, f.issued, p)
    ensures var g := Register(f, id, name, tier, parent); Children(g.records, g.issued, id) == []
  {
    var g := Register(f, id, name, tier, parent);
    assert g.issued[..|g.issued| - 1] == f.issued;
    ChildrenIgnore(f.records, g.records, f.issued, p);
    ChildrenIgnore(f.records, g.records, f.issued, id);
    ChildrenExactly(f.records, f.issued, id);
    var cs := Children(f.records, f.issued, id);
    if cs != [] {
      HasMember(cs);
    }
  }

  lemma HasMember(s: seq<string>)
    requires s != []
    ensures exists x :: x in s
  {
    assert s[0] in s;
  }

  lemma WithoutAbsent(s: seq<string>, x: string)
    requires x !in s
    ensures Without(s, x) == s
  {
  }

  lemma WithoutLast(s: seq<string>, x: string)
    requires x !in s
    ensures Without(s + [x], x) == s
  {
    FindLast(s, x);
  }

  lemma WithoutPrefix(s: seq<string>, x: string, y: string)
    requires x in s
    ensures Without(s + [y], x) == Without(s, x) + [y]
  {
    FindInPrefix(s, x, y);
    var i := Find(s, x);
    assert (s + [y])[..i] == s[..i];
    assert (s + [y])[i + 1..] == s[i + 1..] + [y];
  }

  lemma {:induction false} UnregisteredChildren(records: map<string, Record>, issued: seq<string>, id: string, p: string)
    requires Distinct(issued)
    ensures Children(records - {id}, issued, p) == Without(Children(records, issued, p), id)
  {
    if issued != [] {
      var front, c := issued[..|issued| - 1], issued[|issued| - 1];
      UnregisteredChildren(records, front, id, p);
      ChildrenExactly(records, front, p);
      var rest := Children(records, front, p);
      if c in records && records[c].parent == Some(p) {
        if c == id {
          WithoutLast(rest, id);
          WithoutAbsent(rest, id);
        } else if id in rest {
          WithoutPrefix(rest, id, c);
        } else {
          WithoutAbsent(rest, id);
          WithoutAbsent(rest + [c], id);
        }
      }
    }
  }

  ghost predicate ListsAgree(f: Forest, lists: map<string, seq<string>>) {
    lists.Keys == f.records.Keys && forall p :: p in lists ==> lists[p] == Children(f.records, f.issued, p)
  }

  ghost function ListsAfterRegister(lists: map<string, seq<string>>, id: string, parent: Option<string>): map<string, seq<string>> {
    if parent.Some? && parent.value in lists then
      lists[id := []][parent.value := lists[parent.value] + [id]]
    else
      lists[id := []]
  }

  ghost predicate Consistent(f: Forest, lists: map<string, seq<string>>) {
    WellFormed(f) && ListsAgree(f, lists)
  }

  lemma RegisterKeepsConsistent(f: Forest, lists: map<string, seq<string>>, id: string, name: string, tier: DomainTier, parent: Option<string>)
    requires Consistent(f, lists) && Fresh(f, id) && parent != Some(id)
    ensures Consistent(Register(f, id, name, tier, parent), ListsAfterRegister(lists, id, parent))
    ensures Register(f, id, name, tier, parent).records == f.records[id := Record(name, tier, Uninitialized, parent)]
    ensures Register(f, id, name, tier, parent).world == if tier.World? then Some(id) else f.world
  {
    RegisterKeepsWellFormed(f, id, name, tier, parent);
    RegisterKeepsLists(f, lists, id, name, tier, parent);
  }

  lemma RegisterKeepsLists(f: Forest, lists: map<string, seq<string>>, id: string, name: string, tier: DomainTier, parent: Option<string>)
    requires Consistent(f, lists) && Fresh(f, id) && parent != Some(id)
    ensures ListsAgree(Register(f, id, name, tier, parent), ListsAfterRegister(lists, id, parent))
  {
    var after := ListsAfterRegister(lists, id, parent);
    var g := Register(f, id, name, tier, parent);
    assert id !in lists;
    hide WellFormed, Fresh;
    forall p | p in after ensures after[p] == Children(g.records, g.issued, p) {
      RegisteredChildren(f, id, name, tier, parent, p);
    }
  }

  ghost function ListsAfterUnregister(records: map<string, Record>, lists: map<string, seq<string>>, id: string): map<string, seq<string>>
    requires id in records
  {
    var parent := records[id].parent;
    (if parent.Some? && parent.value in lists then
       lists[parent.value := Without(lists[parent.value], id)]
     else lists) - {id}
  }

  lemma UnregisterKeepsConsistent(f: Forest, lists: map<string, seq<string>>, id: string)
    requires Consistent(f, lists) && id in f.records
    ensures Consistent(Unregister(f, id), ListsAfterUnregister(f.records, lists, id))
    ensures Unregister(f, id).records == f.records - {id} && Unregister(f, id).world == f.world
  {
    var after := ListsAfterUnregister(f.records, lists, id);
    forall p | p in after ensures after[p] == Children(f.records - {id}, f.issued, p) {
      UnregisteredChildren(f.records, f.issued, id, p);
      ChildrenExactly(f.records, f.issued, p);
      if f.records[id].parent != Some(p) {
        WithoutAbsent(Children(f.records, f.issued, p), id);
      }
    }
  }

  lemma StateKeepsConsistent(f: Forest, lists: map<string, seq<string>>, id: string, state: DomainState)
    requires Consistent(f, lists) && id in f.records
    ensures Consistent(SetState(f, id, state), lists)
  {
    forall p | p in lists ensures lists[p] == Children(SetState(f, id, state).records, f.issued, p) {
      ChildrenIgnore(f.records, SetState(f, id, state).records, f.issued, p);
    }
  }

  // ----- Histories -----

  datatype Change =
    | Registering(id: string, name: string, tier: DomainTier, parent: Option<string>)
    | Updating(id: string, state: DomainState)
    | Unregistering(id: string)

  /** A registration gets a fresh id; nothing else is asked of the callers. */
  ghost predicate Possible(f: Forest, change: Change) {
    change.Registering? ==> Fresh(f, change.id) && change.parent != Some(change.id)
  }

  ghost function Changed(f: Forest, change: Change): Forest {
    match change
    case Registering(id, name, tier, parent) =>
      if tier.World? && f.world.Some? then f else Register(f, id, name, tier, parent)
    case Updating(id, state) => if id in f.records then SetState(f, id, state) else f
    case Unregistering(id) => if id in f.records then Unregister(f, id) else f
  }

  /** The child lists, each change appending to or removing from the list of one parent. */
  ghost function Relisted(f: Forest, lists: map<string, seq<string>>, change: Change): map<string, seq<string>> {
    match change
    case Registering(id, _, tier, parent) =>
      if tier.World? && f.world.Some? then lists else ListsAfterRegister(lists, id, parent)
    case Updating(_, _) => lists
    case Unregistering(id) => if id in f.records then ListsAfterUnregister(f.records, lists, id) else lists
  }

  ghost predicate PossibleHistory(f: Forest, changes: seq<Change>)
    decreases |changes|
  {
    changes == [] || (Possible(f, changes[0]) && PossibleHistory(Changed(f, changes[0]), changes[1..]))
  }

  ghost function AfterHistory(f: Forest, lists: map<string, seq<string>>, changes: seq<Change>): (Forest, map<string, seq<string>>)
    decreases |changes|
  {
    if changes == [] then (f, lists)
    else AfterHistory(Changed(f, changes[0]), Relisted(f, lists, changes[0]), changes[1..])
  }

  lemma {:induction false} HistoryKeepsConsistent(f: Forest, lists: map<string, seq<string>>, changes: seq<Change>)
    requires Consistent(f, lists) && PossibleHistory(f, changes)
    ensures Consistent(AfterHistory(f, lists, changes).0, AfterHistory(f, lists, changes).1)
    decreases |changes|
  {
    if changes != [] {
      match changes[0] {
        case Registering(id, name, tier, parent) =>
          RegisterKeepsConsistent(f, lists, id, name, tier, parent);
        case Updating(id, state) =>
          if id in f.records { StateKeepsConsistent(f, lists, id, state); }
        case Unregistering(id) =>
          if id in f.records { UnregisterKeepsConsistent(f, lists, id); }
      }
      HistoryKeepsConsistent(Changed(f, changes[0]), Relisted(f, lists, changes[0]), changes[1..]);
    }
  }

  /** Over any history, `c` is on `p`'s list, and then once, exactly when both are registered
      and `p` is the parent of `c`. */
  lemma PointersStayInStep(changes: seq<Change>, p: string, c: string)
    requires PossibleHistory(Forest([], map[], None), changes)
    ensures var (f, lists) := AfterHistory(Forest([], map[], None), map[], changes);
      lists.Keys == f.records.Keys &&
      (p in lists ==> Distinct(lists[p])) &&
      (p in lists && c in lists[p] <==> p in f.records && c in f.records && f.records[c].parent == Some(p))
  {
    HistoryKeepsConsistent(Forest([], map[], None), map[], changes);
    var (f, lists) := AfterHistory(Forest([], map[], None), map[], changes);
    ChildrenExactly(f.records, f.issued, p);
  }

  // ----- The domain tree -----

  datatype DomainTree = DomainTree(id: string, name: string, tier: DomainTier, state: DomainState, children: seq<DomainTree>)

  ghost predicate Registered(f: Forest, id: string) {
    id in f.records
  }

  ghost function Age(f: Forest, id: string): nat {
    |f.issued| - Find(f.issued, id)
  }

  ghost predicate YoungerThan(f: Forest, cs: seq<string>, id: string) {
    forall c :: c in cs ==> Registered(f, c) && Find(f.issued, id) < Find(f.issued, c)
  }

  lemma ChildrenAreYounger(f: Forest, id: string)
    requires WellFormed(f) && id in f.records
    ensures YoungerThan(f, Children(f.records, f.issued, id), id)
  {
    ChildrenExactly(f.records, f.issued, id);
  }

  ghost function TreeOf(f: Forest, id: string): DomainTree
    requires WellFormed(f) && Registered(f, id)
    decreases Age(f, id), 1, 0
  {
    var r := f.records[id];
    ChildrenAreYounger(f, id);
    DomainTree(id, r.name, r.tier, r.state, TreesOf(f, id, Children(f.records, f.issued, id)))
  }

  ghost function TreesOf(f: Forest, id: string, cs: seq<string>): (ts: seq<DomainTree>)
    requires WellFormed(f) && Registered(f, id) && YoungerThan(f, cs, id)
    ensures |ts| == |cs|
    decreases Age(f, id), 0, |cs|
  {
    if cs == [] then [] else
      var n := |cs| - 1;
      TreesOf(f, id, cs[..n]) + [TreeOf(f, cs[n])]
  }

  /** How often a domain occurs in a tree. */
  ghost function Occurrences(t: DomainTree, d: string): nat
    decreases t, 0
  {
    (if t.id == d then 1 else 0) + OccurrencesIn(t.children, d)
  }

  ghost function OccurrencesIn(ts: seq<DomainTree>, d: string): nat
    decreases ts, 0
  {
    if ts == [] then 0 else OccurrencesIn(ts[..|ts| - 1], d) + Occurrences(ts[|ts| - 1], d)
  }

  /** The chain of registered parents of `d` reaches `a`. */
  ghost predicate Descends(f: Forest, d: string, a: string)
    requires WellFormed(f)
    decreases if Registered(f, d) then 1 + Find(f.issued, d) else 0
  {
    Registered(f, d) &&
    (d == a ||
     (f.records[d].parent.Some? && Registered(f, f.records[d].parent.value) &&
      Descends(f, f.records[d].parent.value, a)))
  }

  lemma {:induction false} DescendantIsYounger(f: Forest, d: string, a: string)
    requires WellFormed(f) && Descends(f, d, a)
    ensures Registered(f, a) && Find(f.issued, a) <= Find(f.issued, d)
    decreases Find(f.issued, d)
  {
    if d != a {
      DescendantIsYounger(f, f.records[d].parent.value, a);
    }
  }

  /** Two ancestors of one domain lie on one chain. */
  lemma {:induction false} AncestorsAreComparable(f: Forest, d: string, a: string, b: string)
    requires WellFormed(f) && Descends(f, d, a) && Descends(f, d, b)
    ensures Descends(f, a, b) || Descends(f, b, a)
    decreases Find(f.issued, d)
  {
    if d != a && d != b {
      AncestorsAreComparable(f, f.records[d].parent.value, a, b);
    }
  }

  lemma SiblingsAreDisjoint(f: Forest, d: string, p: string, a: string, b: string)
    requires WellFormed(f) && Registered(f, p) && a != b && Registered(f, a) && Registered(f, b)
    requires f.records[a].parent == Some(p) && f.records[b].parent == Some(p)
    ensures !(Descends(f, d, a) && Descends(f, d, b))
  {
    if Descends(f, d, a) && Descends(f, d, b) {
      AncestorsAreComparable(f, d, a, b);
      var lower, upper := if Descends(f, a, b) then a else b, if Descends(f, a, b) then b else a;
      DescendantIsYounger(f, p, upper);
    }
  }

  lemma {:induction false} DescendsThroughChild(f: Forest, d: string, a: string)
    requires WellFormed(f) && Registered(f, a)
    ensures Descends(f, d, a) && d != a ==>
            exists c :: c in Children(f.records, f.issued, a) && Descends(f, d, c)
    ensures forall c :: c in Children(f.records, f.issued, a) && Descends(f, d, c) ==> Descends(f, d, a) && d != a
    decreases if Registered(f, d) then 1 + Find(f.issued, d) else 0
  {
    ChildrenExactly(f.records, f.issued, a);
    if Registered(f, d) && f.records[d].parent.Some? && Registered(f, f.records[d].parent.value) {
      DescendsThroughChild(f, f.records[d].parent.value, a);
    }
    forall c | c in Children(f.records, f.issued, a) && Descends(f, d, c) ensures Descends(f, d, a) && d != a {
      DescendantIsYounger(f, d, c);
    }
  }

  /** The tree under a domain lists exactly once each domain below it, and no other. */
  lemma {:induction false} TreeListsDescendantsOnce(f: Forest, id: string, d: string)
    requires WellFormed(f) && Registered(f, id)
    ensures Occurrences(TreeOf(f, id), d) == if Descends(f, d, id) then 1 else 0
    decreases Age(f, id), 1, 0
  {
    var cs := Children(f.records, f.issued, id);
    ChildrenAreYounger(f, id);
    ChildrenExactly(f.records, f.issued, id);
    TreesListDescendantsOnce(f, id, cs, d);
    DescendsThroughChild(f, d, id);
  }

  lemma {:induction false} TreesListDescendantsOnce(f: Forest, id: string, cs: seq<string>, d: string)
    requires WellFormed(f) && Registered(f, id) && YoungerThan(f, cs, id) && Distinct(cs)
    requires forall c :: c in cs ==> f.records[c].parent == Some(id)
    ensures OccurrencesIn(TreesOf(f, id, cs), d) == if exists c :: c in cs && Descends(f, d, c) then 1 else 0
    decreases Age(f, id), 0, |cs|
  {
    if cs != [] {
      var n := |cs| - 1;
      var ts := TreesOf(f, id, cs);
      assert ts[..n] == TreesOf(f, id, cs[..n]);
      TreesListDescendantsOnce(f, id, cs[..n], d);
      TreeListsDescendantsOnce(f, cs[n], d);
      assert cs == cs[..n] + [cs[n]];
      forall c | c in cs[..n] ensures !(Descends(f, d, c) && Descends(f, d, cs[n])) {
        SiblingsAreDisjoint(f, d, id, c, cs[n]);
      }
    }
  }

  ghost function Roots(ts: seq<DomainTree>): (ids: seq<string>)
    ensures |ids| == |ts| && forall i :: 0 <= i < |ids| ==> ids[i] == ts[i].id
  {
    seq(|ts|, i requires 0 <= i < |ts| => ts[i].id)
  }

  ghost predicate InIssueOrder(issued: seq<string>, ids: seq<string>) {
    forall i, j :: 0 <= i < j < |ids| ==> Find(issued, ids[i]) < Find(issued, ids[j])
  }

  /** Each node shows the record of its domain, and below it, in registration order, exactly the
      registered domains that name it as their parent. */
  ghost predicate Shows(f: Forest, t: DomainTree)
    decreases t
  {
    Registered(f, t.id) && Record(t.name, t.tier, t.state, f.records[t.id].parent) == f.records[t.id] &&
    InIssueOrder(f.issued, Roots(t.children)) &&
    (forall c :: c in Roots(t.children) <==> Registered(f, c) && f.records[c].parent == Some(t.id)) &&
    forall k :: 0 <= k < |t.children| ==> Shows(f, t.children[k])
  }

  lemma {:induction false} ChildrenInIssueOrder(records: map<string, Record>, front: seq<string>, rest: seq<string>, p: string)
    requires Distinct(front + rest)
    ensures InIssueOrder(front + rest, Children(records, front, p))
    ensures forall c :: c in Children(records, front, p) ==> c in front
    decreases |front|
  {
    hide Find;
    if front != [] {
      var n := |front| - 1;
      var last, cs := front[n], Children(records, front[..n], p);
      assert front[..n] + ([last] + rest) == front + rest;
      ChildrenInIssueOrder(records, front[..n], [last] + rest, p);
      forall c | c in cs ensures Find(front + rest, c) < Find(front + rest, last) {
        FoundWhereItIs(front + rest, n);
        var i :| 0 <= i < n && front[i] == c;
        FoundWhereItIs(front + rest, i);
      }
    }
  }

  lemma FoundWhereItIs(s: seq<string>, i: nat)
    requires Distinct(s) && i < |s|
    ensures Find(s, s[i]) == i
  {
    hide Find;
    assert s[i] in s;
  }

  lemma {:induction false} TreeShows(f: Forest, id: string)
    requires WellFormed(f) && Registered(f, id)
    ensures TreeOf(f, id).id == id && Shows(f, TreeOf(f, id))
    decreases Age(f, id), 1, 0
  {
    hide Find, Children, TreeOf, Shows, InIssueOrder;
    var cs := Children(f.records, f.issued, id);
    ChildrenAreYounger(f, id);
    ChildrenExactly(f.records, f.issued, id);
    assert f.issued + [] == f.issued;
    ChildrenInIssueOrder(f.records, f.issued, [], id);
    TreesShow(f, id, cs);
    TreeUnfolds(f, id);
    NodeShows(f, TreeOf(f, id), cs);
  }

  lemma TreeUnfolds(f: Forest, id: string)
    requires WellFormed(f) && Registered(f, id)
    ensures var t, r := TreeOf(f, id), f.records[id];
      YoungerThan(f, Children(f.records, f.issued, id), id) &&
      t == DomainTree(id, r.name, r.tier, r.state, TreesOf(f, id, Children(f.records, f.issued, id)))
  {
    hide Find, Children;
    ChildrenAreYounger(f, id);
  }

  lemma NodeShows(f: Forest, t: DomainTree, cs: seq<string>)
    requires Registered(f, t.id) && Record(t.name, t.tier, t.state, f.records[t.id].parent) == f.records[t.id]
    requires Roots(t.children) == cs && InIssueOrder(f.issued, cs)
    requires forall c :: c in cs <==> Registered(f, c) && f.records[c].parent == Some(t.id)
    requires forall k :: 0 <= k < |t.children| ==> Shows(f, t.children[k])
    ensures Shows(f, t)
  {
    hide InIssueOrder;
  }

  lemma {:induction false} TreesShow(f: Forest, id: string, cs: seq<string>)
    requires WellFormed(f) && Registered(f, id) && YoungerThan(f, cs, id)
    ensures Roots(TreesOf(f, id, cs)) == cs
    ensures forall k :: 0 <= k < |cs| ==> Shows(f, TreesOf(f, id, cs)[k])
    decreases Age(f, id), 0, |cs|
  {
    hide Find, Shows;
    if cs != [] {
      var n := |cs| - 1;
      TreesShow(f, id, cs[..n]);
      TreeShows(f, cs[n]);
      assert cs == cs[..n] + [cs[n]];
    }
  }

  // ----- The registry -----

  class DomainRegistration {
    const domainId: string
    const name: string
    const tier: DomainTier
    const parentDomain: Option<string>
    var state: DomainState
    var childDomains: seq<string>

    constructor (domainId: string, name: string, tier: DomainTier, parentDomain: Option<string>)
      ensures this.domainId == domainId && this.name == name && this.tier == tier && this.parentDomain == parentDomain
      ensures state == Uninitialized && childDomains == []
    {
      this.domainId, this.name, this.tier, this.parentDomain := domainId, name, tier, parentDomain;
      state, childDomains := Uninitialized, [];
    }

    ghost predicate Carries(id: string, r: Record, children: seq<string>)
      reads this
    {
      domainId == id && Record(name, tier, state, parentDomain) == r && childDomains == children
    }
  }

  datatype TreeResult = NoWorld | KeyError(id: string) | Tree(tree: DomainTree)

  class DomainRegistry {
    var domains: map<string, DomainRegistration>
    var worldDomainId: Option<string>
    ghost var forest: Forest
    ghost var lists: map<string, seq<string>>

    /** The registered objects carry what `forest` and `lists` say, and the lists are those of
        the forest: parent pointers and child lists agree. */
    ghost predicate Valid()
      reads this, domains.Values
    {
      Consistent(forest, lists) && forest.world == worldDomainId && Reflects(forest.records, lists)
    }

    ghost predicate Reflects(records: map<string, Record>, lists: map<string, seq<string>>)
      reads this`domains, domains.Values
    {
      domains.Keys == records.Keys == lists.Keys &&
      forall id {:trigger domains[id]} :: id in domains ==> domains[id].Carries(id, records[id], lists[id])
    }

    constructor ()
      ensures Valid() && forest == Forest([], map[], None) && domains == map[]
    {
      domains, worldDomainId, forest, lists := map[], None, Forest([], map[], None), map[];
    }

    lemma FreshIsAbsent(id: string)
      requires Valid() && Fresh(forest, id)
      ensures "" !in domains && id !in domains
    {
      NoEmptyName(forest);
    }

    /** `None` stands for the error raised when a second world domain is registered; `id` is
        the generated identifier. */
    method RegisterDomain(id: string, name: string, tier: DomainTier, parentDomain: Option<string>)
      returns (result: Option<string>)
      requires Valid() && Fresh(forest, id) && parentDomain != Some(id)
      modifies this, domains.Values
      ensures Valid()
      ensures result == if tier.World? && old(worldDomainId).Some? then None else Some(id)
      ensures forest == if result.None? then old(forest) else Register(old(forest), id, name, tier, parentDomain)
      ensures fresh(domains.Values - old(domains.Values))
    {
      hide Consistent, Fresh, ListsAfterRegister, Register, Reflects;
      FreshIsAbsent(id);
      RegisterKeepsConsistent(forest, lists, id, name, tier, parentDomain);
      var registration := new DomainRegistration(id, name, tier, parentDomain);
      if tier.World? {
        if worldDomainId.Some? {
          return None;
        }
        worldDomainId := Some(registration.domainId);
      }
      Enrol(registration);
      result := Some(registration.domainId);
    }

    /** Stores a new registration and adds it to its parent's list. */
    method Enrol(registration: DomainRegistration)
      requires Reflects(forest.records, lists) && "" !in domains
      requires registration.domainId !in domains && registration.childDomains == [] && registration.state == Uninitialized
      requires registration.parentDomain != Some(registration.domainId)
      modifies this`domains, this`forest, this`lists, domains.Values
      ensures Reflects(forest.records, lists)
      ensures domains == old(domains)[registration.domainId := registration]
      ensures domains.Values - old(domains.Values) <= {registration}
      ensures forest == Register(old(forest), registration.domainId, registration.name, registration.tier, registration.parentDomain)
      ensures lists == ListsAfterRegister(old(lists), registration.domainId, registration.parentDomain)
    {
      var id, parentDomain := registration.domainId, registration.parentDomain;
      Store(registration);
      if parentDomain.Some? && parentDomain.value != "" && parentDomain.value in domains {
        ListChild(parentDomain.value, id);
      }
    }

    method Store(registration: DomainRegistration)
      requires Reflects(forest.records, lists)
      requires registration.domainId !in domains && registration.childDomains == [] && registration.state == Uninitialized
      modifies this`domains, this`forest, this`lists
      ensures Reflects(forest.records, lists)
      ensures domains == old(domains)[registration.domainId := registration]
      ensures forest == Register(old(forest), registration.domainId, registration.name, registration.tier, registration.parentDomain)
      ensures lists == old(lists)[registration.domainId := []]
    {
      var id := registration.domainId;
      domains := domains[id := registration];
      forest := Register(forest, id, registration.name, registration.tier, registration.parentDomain);
      lists := lists[id := []];
    }

    method ListChild(parentId: string, id: string)
      requires Reflects(forest.records, lists) && parentId in domains
      modifies this`lists, domains[parentId]
      ensures Reflects(forest.records, lists)
      ensures lists == old(lists)[parentId := old(lists)[parentId] + [id]]
    {
      var parent := domains[parentId];
      ghost var before := lists;
      lists := lists[parentId := lists[parentId] + [id]];
      assert forall k :: k in domains && k != parentId ==> domains[k] != parent;
      parent.childDomains := parent.childDomains + [id];
    }

    /** Takes a domain off its parent's list and out of the registry. */
    method Strike(id: string, ghost records: map<string, Record>, ghost lists: map<string, seq<string>>)
      requires Reflects(records, lists) && "" !in domains && id in domains
      modifies this`domains, domains.Values
      ensures Reflects(records - {id}, ListsAfterUnregister(records, lists, id))
      ensures domains == old(domains) - {id}
    {
      var domain := domains[id];
      if domain.parentDomain.Some? && domain.parentDomain.value != "" && domain.parentDomain.value in domains {
        var parent := domains[domain.parentDomain.value];
        if id in parent.childDomains {
          parent.childDomains := Without(parent.childDomains, id);
        }
      }
      domains := domains - {id};
    }

    method UpdateDomainState(id: string, newState: DomainState) returns (found: bool)
      requires Valid()
      modifies this`forest, domains.Values
      ensures Valid()
      ensures found == (id in domains)
      ensures forest == if found then SetState(old(forest), id, newState) else old(forest)
    {
      hide Consistent;
      if id !in domains {
        return false;
      }
      StateKeepsConsistent(forest, lists, id, newState);
      ghost var records := forest.records;
      forest := SetState(forest, id, newState);
      assert Reflects(records, lists);
      domains[id].state := newState;
      forall k | k in domains ensures domains[k].Carries(k, forest.records[k], lists[k]) {
        if k != id {
          assert domains[k].domainId != domains[id].domainId;
        }
      }
      return true;
    }

    method UnregisterDomain(id: string) returns (found: bool)
      requires Valid()
      modifies this, domains.Values
      ensures Valid()
      ensures found == (id in old(domains))
      ensures forest == if found then Unregister(old(forest), id) else old(forest)
      ensures domains.Values <= old(domains.Values)
    {
      NoEmptyName(forest);
      if id !in domains {
        return false;
      }
      UnregisterKeepsConsistent(forest, lists, id);
      hide Consistent, ListsAfterUnregister, Unregister;
      ghost var records, before := forest.records, lists;
      forest, lists := Unregister(forest, id), ListsAfterUnregister(records, lists, id);
      Strike(id, records, before);
      found := true;
    }

    /** The recursive reader ends, and no child on a list is missing. */
    method BuildTree(id: string) returns (t: DomainTree)
      requires Valid() && id in domains
      ensures t == TreeOf(forest, id)
      decreases Age(forest, id)
    {
      hide WellFormed;
      var domain := domains[id];
      ghost var f := forest;
      ChildrenAreYounger(f, id);
      var children: seq<DomainTree> := [];
      for i := 0 to |domain.childDomains|
        invariant YoungerThan(f, domain.childDomains[..i], id)
        invariant children == TreesOf(f, id, domain.childDomains[..i])
      {
        var c := domain.childDomains[i];
        assert domain.childDomains[..i + 1][..i] == domain.childDomains[..i];
        var child := BuildTree(c);
        children := children + [child];
      }
      assert domain.childDomains[..|domain.childDomains|] == domain.childDomains;
      t := DomainTree(id, domain.name, domain.tier, domain.state, children);
    }

    /** The tree lists exactly once each domain whose chain of registered parents reaches the
        world domain; without a registered world domain there is none. */
    method GetDomainTree() returns (result: TreeResult)
      requires Valid()
      ensures worldDomainId.None? ==> result == NoWorld
      ensures worldDomainId.Some? && worldDomainId.value !in domains ==> result == KeyError(worldDomainId.value)
      ensures worldDomainId.Some? && worldDomainId.value in domains ==>
        result.Tree? && result.tree.id == worldDomainId.value && Shows(forest, result.tree) &&
        forall d :: Occurrences(result.tree, d) == if Descends(forest, d, worldDomainId.value) then 1 else 0
    {
      if worldDomainId.None? || worldDomainId.value == "" {
        return NoWorld;
      }
      if worldDomainId.value !in domains {
        return KeyError(worldDomainId.value);
      }
      var t := BuildTree(worldDomainId.value);
      TreeShows(forest, worldDomainId.value);
      forall d ensures Occurrences(t, d) == if Descends(forest, d, worldDomainId.value) then 1 else 0 {
        TreeListsDescendantsOnce(forest, worldDomainId.value, d);
      }
      result := Tree(t);
    }
  }
}
