/** The causality walk: a depth-first traversal of the logged parents of an event. */
module Causality {
  import opened Prelude
  import opened Lattice

  /** The logged event `a` names `b` as a parent. */
  ghost predicate Cites(log: seq<LatticeEvent>, a: string, b: string) {
    Lookup(log, a) >= 0 && b in log[Lookup(log, a)].parentEvents
  }

  ghost predicate ReachesIn(log: seq<LatticeEvent>, a: string, b: string, n: nat)
    decreases n
  {
    if n == 0 then a == b else exists m :: Cites(log, a, m) && ReachesIn(log, m, b, n - 1)
  }

  ghost predicate Reaches(log: seq<LatticeEvent>, a: string, b: string) {
    exists n: nat :: ReachesIn(log, a, b, n)
  }

  lemma ReachesItself(log: seq<LatticeEvent>, a: string)
    ensures Reaches(log, a, a)
  {
    assert ReachesIn(log, a, a, 0);
  }

  lemma ReachesThroughParent(log: seq<LatticeEvent>, a: string, m: string, b: string)
    requires Cites(log, a, m) && Reaches(log, m, b)
    ensures Reaches(log, a, b)
  {
    var n: nat :| ReachesIn(log, m, b, n);
    assert ReachesIn(log, a, b, n + 1);
  }

  ghost function LoggedIds(log: seq<LatticeEvent>): set<string> {
    set e | e in log :: e.eventId
  }

  ghost predicate InChain(chain: seq<LatticeEvent>, id: string) {
    exists i :: 0 <= i < |chain| && chain[i].eventId == id
  }

  /** The chain holds the logged event of each visited id, each once. */
  ghost predicate Walked(log: seq<LatticeEvent>, visited: set<string>, chain: seq<LatticeEvent>) {
    (forall i, j :: 0 <= i < j < |chain| ==> chain[i].eventId != chain[j].eventId) &&
    (forall i :: 0 <= i < |chain| ==>
       chain[i].eventId in visited && Lookup(log, chain[i].eventId) >= 0 && log[Lookup(log, chain[i].eventId)] == chain[i]) &&
    forall id :: id in visited && Lookup(log, id) >= 0 ==> InChain(chain, id)
  }

  /** The parents of the events from position `k` on have been visited. */
  ghost predicate Closed(chain: seq<LatticeEvent>, k: nat, visited: set<string>) {
    forall i, p :: k <= i < |chain| && p in chain[i].parentEvents ==> p in visited
  }

  /** Every event after position `k` is named as a parent by one from `k` on before it. */
  ghost predicate Justified(chain: seq<LatticeEvent>, k: nat) {
    forall i :: k < i < |chain| ==> exists j :: k <= j < i && chain[i].eventId in chain[j].parentEvents
  }

  method Traverse(log: seq<LatticeEvent>, eid: string, visited0: set<string>, chain0: seq<LatticeEvent>)
    returns (visited: set<string>, chain: seq<LatticeEvent>)
    requires Walked(log, visited0, chain0)
    ensures Walked(log, visited, chain) && visited0 <= visited && eid in visited && chain0 <= chain
    ensures forall v :: v in visited && v !in visited0 ==> Reaches(log, eid, v)
    ensures Closed(chain, |chain0|, visited) && Justified(chain, |chain0|)
    ensures |chain| > |chain0| ==> chain[|chain0|].eventId == eid
    decreases LoggedIds(log) - visited0
  {
    hide Walked, Closed, Justified, Reaches, LoggedIds;
    visited, chain := visited0, chain0;
    NothingNew(chain, visited);
    if eid in visited {
      return;
    }
    visited := visited + {eid};
    ReachesItself(log, eid);
    EnterKeepsWalked(log, visited0, chain0, eid);
    var found := Lookup(log, eid);
    if found < 0 {
      NothingNew(chain, visited);
      return;
    }
    var event := log[found];
    chain := chain + [event];
    NothingNew(chain, visited);
    for k := 0 to |event.parentEvents|
      invariant Walked(log, visited, chain) && visited0 + {eid} <= visited && chain0 + [event] <= chain
      invariant forall v :: v in visited && v !in visited0 ==> Reaches(log, eid, v)
      invariant Closed(chain, |chain0| + 1, visited) && Justified(chain, |chain0|)
      invariant forall i :: 0 <= i < k ==> event.parentEvents[i] in visited
    {
      var parent := event.parentEvents[k];
      assert Cites(log, eid, parent);
      ghost var visited1, chain1 := visited, chain;
      visited, chain := Traverse(log, parent, visited, chain);
      forall v | v in visited && v !in visited1 ensures Reaches(log, eid, v) {
        ReachesThroughParent(log, eid, parent, v);
      }
      CloseThrough(chain1, chain, |chain0| + 1, visited1, visited);
      JustifyThrough(chain0 + [event], chain1, chain, parent);
    }
    CloseEvent(chain, |chain0|, event, visited);
  }

  lemma NothingNew(chain: seq<LatticeEvent>, visited: set<string>)
    ensures Closed(chain, |chain|, visited) && Justified(chain, |chain|)
    ensures |chain| > 0 ==> Justified(chain, |chain| - 1)
  {
  }

  lemma EnterKeepsWalked(log: seq<LatticeEvent>, visited: set<string>, chain: seq<LatticeEvent>, eid: string)
    requires Walked(log, visited, chain) && eid !in visited
    ensures Lookup(log, eid) < 0 ==> Walked(log, visited + {eid}, chain)
    ensures Lookup(log, eid) >= 0 ==> Walked(log, visited + {eid}, chain + [log[Lookup(log, eid)]])
    ensures Lookup(log, eid) >= 0 ==> LoggedIds(log) - (visited + {eid}) < LoggedIds(log) - visited
  {
    var i := Lookup(log, eid);
    if i >= 0 {
      assert log[i] in log && eid in LoggedIds(log);
      EnterKeepsChain(log, visited, chain, i);
    }
  }

  lemma EnterKeepsChain(log: seq<LatticeEvent>, visited: set<string>, chain: seq<LatticeEvent>, i: nat)
    requires Walked(log, visited, chain) && i < |log| && log[i].eventId !in visited && Lookup(log, log[i].eventId) == i
    ensures Walked(log, visited + {log[i].eventId}, chain + [log[i]])
  {
    hide Lookup;
    var after := chain + [log[i]];
    forall id | id in visited + {log[i].eventId} && Lookup(log, id) >= 0 ensures InChain(after, id) {
      if id == log[i].eventId {
        assert after[|chain|].eventId == id;
      } else {
        var k :| 0 <= k < |chain| && chain[k].eventId == id;
        assert after[k] == chain[k];
      }
    }
  }

  lemma CloseThrough(before: seq<LatticeEvent>, after: seq<LatticeEvent>, k: nat, visited: set<string>, visited': set<string>)
    requires before <= after && visited <= visited' && Closed(before, k, visited) && Closed(after, |before|, visited')
    ensures Closed(after, k, visited')
  {
    forall i, p | k <= i < |after| && p in after[i].parentEvents ensures p in visited' {
      if i < |before| {
        assert after[i] == before[i];
      }
    }
  }

  lemma CloseEvent(chain: seq<LatticeEvent>, k: nat, event: LatticeEvent, visited: set<string>)
    requires k < |chain| && chain[k] == event && Closed(chain, k + 1, visited)
    requires forall i :: 0 <= i < |event.parentEvents| ==> event.parentEvents[i] in visited
    ensures Closed(chain, k, visited)
  {
  }

  /** Appending what a traversal from a parent found keeps the chain justified. */
  lemma JustifyThrough(first: seq<LatticeEvent>, before: seq<LatticeEvent>, after: seq<LatticeEvent>, parent: string)
    requires first != [] && first <= before <= after
    requires Justified(before, |first| - 1) && Justified(after, |before|)
    requires |after| > |before| ==> after[|before|].eventId == parent
    requires parent in first[|first| - 1].parentEvents
    ensures Justified(after, |first| - 1)
  {
    var k := |first| - 1;
    forall i | k < i < |after| ensures exists j :: k <= j < i && after[i].eventId in after[j].parentEvents {
      if i < |before| {
        var j :| k <= j < i && before[i].eventId in before[j].parentEvents;
        assert after[j] == before[j] && after[i] == before[i];
      } else if i == |before| {
        assert after[k] == first[k];
      } else {
        var j :| |before| <= j < i && after[i].eventId in after[j].parentEvents;
      }
    }
  }

  /** Whatever a closed chain starts from, all that is reachable has been visited. */
  lemma {:induction false} ClosedReachesAll(log: seq<LatticeEvent>, visited: set<string>, chain: seq<LatticeEvent>, a: string, b: string, n: nat)
    requires Walked(log, visited, chain) && Closed(chain, 0, visited) && a in visited && ReachesIn(log, a, b, n)
    ensures b in visited
    decreases n
  {
    if n > 0 {
      var m :| Cites(log, a, m) && ReachesIn(log, m, b, n - 1);
      var i :| 0 <= i < |chain| && chain[i].eventId == a;
      ClosedReachesAll(log, visited, chain, m, b, n - 1);
    }
  }

  function Reversed(s: seq<LatticeEvent>): (r: seq<LatticeEvent>)
    ensures |r| == |s| && forall i :: 0 <= i < |s| ==> r[i] == s[|s| - 1 - i]
  {
    if s == [] then [] else Reversed(s[1..]) + [s[0]]
  }

  /** The chain lists exactly once each logged event reachable from the query through logged
      parents; the query comes last, and every other event before one that names it. */
  method GetCausalityChain(log: seq<LatticeEvent>, eventId: string) returns (result: seq<LatticeEvent>)
    ensures forall i, j :: 0 <= i < j < |result| ==> result[i].eventId != result[j].eventId
    ensures forall i :: 0 <= i < |result| ==>
      Lookup(log, result[i].eventId) >= 0 && log[Lookup(log, result[i].eventId)] == result[i]
    ensures forall id :: InChain(result, id) <==> Lookup(log, id) >= 0 && Reaches(log, eventId, id)
    ensures result != [] ==> result[|result| - 1].eventId == eventId
    ensures forall i :: 0 <= i < |result| - 1 ==> NamedLater(result, i)
  {
    NothingNew([], {});
    var visited, chain := Traverse(log, eventId, {}, []);
    result := Reversed(chain);
    hide Walked, Closed, Reaches, Justified;
    forall id ensures InChain(result, id) <==> Lookup(log, id) >= 0 && Reaches(log, eventId, id) {
      ReversedHolds(chain, id);
      ChainIsReachable(log, visited, chain, eventId, id);
    }
    ReversedIsJustified(chain);
  }

  lemma ChainIsReachable(log: seq<LatticeEvent>, visited: set<string>, chain: seq<LatticeEvent>, a: string, id: string)
    requires Walked(log, visited, chain) && Closed(chain, 0, visited) && a in visited
    requires forall v :: v in visited ==> Reaches(log, a, v)
    ensures InChain(chain, id) <==> Lookup(log, id) >= 0 && Reaches(log, a, id)
  {
    if Reaches(log, a, id) {
      var n: nat :| ReachesIn(log, a, id, n);
      ClosedReachesAll(log, visited, chain, a, id, n);
    }
  }

  ghost predicate NamedLater(r: seq<LatticeEvent>, i: nat) {
    exists j :: i < j < |r| && i < |r| && r[i].eventId in r[j].parentEvents
  }

  lemma ReversedIsJustified(chain: seq<LatticeEvent>)
    requires Justified(chain, 0)
    ensures forall i :: 0 <= i < |chain| - 1 ==> NamedLater(Reversed(chain), i)
  {
    var r := Reversed(chain);
    forall i | 0 <= i < |r| - 1 ensures NamedLater(r, i) {
      var k := |chain| - 1 - i;
      var j :| 0 <= j < k && chain[k].eventId in chain[j].parentEvents;
      assert r[|chain| - 1 - j] == chain[j];
    }
  }

  lemma ReversedHolds(s: seq<LatticeEvent>, id: string)
    ensures InChain(s, id) <==> InChain(Reversed(s), id)
  {
    var r := Reversed(s);
    if InChain(s, id) {
      var i :| 0 <= i < |s| && s[i].eventId == id;
      assert r[|s| - 1 - i].eventId == id;
      assert InChain(r, id);
    }
    if InChain(r, id) {
      var i :| 0 <= i < |r| && r[i].eventId == id;
      assert r[i] == s[|s| - 1 - i];
      assert InChain(s, id);
    }
  }
}
