/** What any history of calls leaves in the registry, read off the calls alone: which domains are
    registered, what each record says, which is the world domain, and what the tree shows. */
module RegistryHistory {
  import opened Prelude
  import opened DomainRegistry

  ghost const UNREGISTERED := Forest([], map[], None)

  ghost function After(changes: seq<Change>): Forest {
    AfterHistory(UNREGISTERED, map[], changes).0
  }

  // ----- The calls that name a domain -----

  ghost function Registers(d: string): Change -> bool {
    (c: Change) => c.Registering? && c.id == d
  }

  ghost function Updates(d: string): Change -> bool {
    (c: Change) => c.Updating? && c.id == d
  }

  ghost function Unregisters(d: string): Change -> bool {
    (c: Change) => c.Unregistering? && c.id == d
  }

  /** The first world domain asked for. */
  ghost function WorldOf(changes: seq<Change>): Option<string> {
    if changes == [] then None else
      var rest, c := WorldOf(changes[..|changes| - 1]), changes[|changes| - 1];
      if rest.None? && c.Registering? && c.tier.World? then Some(c.id) else rest
  }

  /** The record of a domain: there is one when its last registration was not of a second world
      domain and it was not removed since; it says what that registration said, and its state is
      the last one set since. */
  ghost function RecordOf(changes: seq<Change>, d: string): Option<Record> {
    var i := LastIndex(changes, Registers(d));
    var j, k := LastIndex(changes, Unregisters(d)), LastIndex(changes, Updates(d));
    if i < 0 || i < j || (changes[i].tier.World? && WorldOf(changes[..i]).Some?) then None
    else Some(Record(changes[i].name, changes[i].tier, if i < k then changes[k].state else Uninitialized, changes[i].parent))
  }

  ghost predicate Tells(f: Forest, d: string, r: Option<Record>) {
    if r.Some? then d in f.records && f.records[d] == r.value else d !in f.records
  }

  lemma WorldOfAppends(changes: seq<Change>, c: Change)
    ensures WorldOf(changes + [c]) ==
      if WorldOf(changes).None? && c.Registering? && c.tier.World? then Some(c.id) else WorldOf(changes)
  {
    assert (changes + [c])[..|changes|] == changes;
  }

  lemma RecordOfAppends(changes: seq<Change>, c: Change, d: string)
    ensures RecordOf(changes + [c], d) ==
      if c.id != d then RecordOf(changes, d)
      else match c
        case Registering(_, name, tier, parent) =>
          if tier.World? && WorldOf(changes).Some? then None else Some(Record(name, tier, Uninitialized, parent))
        case Updating(_, state) =>
          if RecordOf(changes, d).Some? then Some(RecordOf(changes, d).value.(state := state)) else None
        case Unregistering(_) => None
  {
    hide LastIndex, WorldOf;
    LastIndexAppends(changes, c, Registers(d));
    LastIndexAppends(changes, c, Updates(d));
    LastIndexAppends(changes, c, Unregisters(d));
    var i := LastIndex(changes + [c], Registers(d));
    assert (changes + [c])[..|changes|] == changes;
    if 0 <= i < |changes| {
      assert (changes + [c])[..i] == changes[..i];
    }
  }

  // ----- Histories one call longer -----

  lemma {:induction false} HistoryAppends(f: Forest, lists: map<string, seq<string>>, changes: seq<Change>, c: Change)
    ensures AfterHistory(f, lists, changes + [c]).0 == Changed(AfterHistory(f, lists, changes).0, c)
    ensures PossibleHistory(f, changes + [c]) <==> PossibleHistory(f, changes) && Possible(AfterHistory(f, lists, changes).0, c)
    decreases |changes|
  {
    hide Changed, Relisted, Possible;
    var all := changes + [c];
    if changes == [] {
      assert all[0] == c && all[1..] == [];
    } else {
      assert all[0] == changes[0] && all[1..] == changes[1..] + [c];
      HistoryAppends(Changed(f, changes[0]), Relisted(f, lists, changes[0]), changes[1..], c);
    }
  }

  lemma HistoryIsWellFormed(changes: seq<Change>)
    requires PossibleHistory(UNREGISTERED, changes)
    ensures WellFormed(After(changes))
  {
    HistoryKeepsConsistent(UNREGISTERED, map[], changes);
  }

  lemma ChangeTells(f: Forest, c: Change, d: string, r: Option<Record>)
    requires WellFormed(f) && Possible(f, c) && Tells(f, d, r)
    ensures Changed(f, c).world == if f.world.None? && c.Registering? && c.tier.World? then Some(c.id) else f.world
    ensures Tells(Changed(f, c), d,
      if c.id != d then r
      else match c
        case Registering(_, name, tier, parent) =>
          if tier.World? && f.world.Some? then None else Some(Record(name, tier, Uninitialized, parent))
        case Updating(_, state) => if r.Some? then Some(r.value.(state := state)) else None
        case Unregistering(_) => None)
  {
    hide Find;
  }

  /** After any history a domain is registered, with the record the calls say, exactly when the
      calls say so, and the world domain is the first one asked for. */
  lemma {:induction false} RecordsFollowTheCalls(changes: seq<Change>, d: string)
    requires PossibleHistory(UNREGISTERED, changes)
    ensures Tells(After(changes), d, RecordOf(changes, d)) && After(changes).world == WorldOf(changes)
  {
    hide Changed, Possible, PossibleHistory, AfterHistory, WellFormed, RecordOf, Tells, WorldOf;
    if changes == [] {
      NothingTold(d);
    } else {
      var front, c := changes[..|changes| - 1], changes[|changes| - 1];
      assert changes == front + [c];
      HistoryAppends(UNREGISTERED, map[], front, c);
      RecordsFollowTheCalls(front, d);
      HistoryIsWellFormed(front);
      ChangeTells(After(front), c, d, RecordOf(front, d));
      RecordOfAppends(front, c, d);
      WorldOfAppends(front, c);
    }
  }

  lemma NothingTold(d: string)
    ensures Tells(After([]), d, RecordOf([], d)) && After([]).world == WorldOf([])
  {
  }

  // ----- The order of the children -----

  ghost function CallOf(changes: seq<Change>, d: string): int {
    LastIndex(changes, Registers(d))
  }

  ghost predicate Ascending(ids: seq<string>, changes: seq<Change>) {
    forall i, j :: 0 <= i < j < |ids| ==> CallOf(changes, ids[i]) < CallOf(changes, ids[j])
  }

  lemma ChangeKeepsIssued(f: Forest, changes: seq<Change>, c: Change)
    requires WellFormed(f) && Possible(f, c) && Ascending(f.issued, changes)
    ensures Ascending(Changed(f, c).issued, changes + [c])
  {
    hide WellFormed, LastIndex;
    forall d ensures CallOf(changes + [c], d) == if Registers(d)(c) then |changes| else CallOf(changes, d) {
      LastIndexAppends(changes, c, Registers(d));
    }
    forall d ensures CallOf(changes, d) < |changes| {
    }
    if c.Registering? {
      assert forall i :: 0 <= i < |f.issued| ==> f.issued[i] != c.id;
    }
  }

  lemma {:induction false} IssuedInOrder(changes: seq<Change>)
    requires PossibleHistory(UNREGISTERED, changes)
    ensures Ascending(After(changes).issued, changes)
  {
    hide Changed, Possible, PossibleHistory, WellFormed, Ascending;
    if changes == [] {
      NoneInOrder();
    } else {
      hide AfterHistory;
      var front, c := changes[..|changes| - 1], changes[|changes| - 1];
      assert changes == front + [c];
      HistoryAppends(UNREGISTERED, map[], front, c);
      IssuedInOrder(front);
      HistoryIsWellFormed(front);
      ChangeKeepsIssued(After(front), front, c);
    }
  }

  lemma NoneInOrder()
    ensures Ascending(After([]).issued, [])
  {
  }

  lemma {:induction false} ChildrenInOrder(records: map<string, Record>, issued: seq<string>, p: string, changes: seq<Change>)
    requires Ascending(issued, changes)
    ensures Ascending(Children(records, issued, p), changes)
    ensures forall c :: c in Children(records, issued, p) ==> c in issued
  {
    hide LastIndex, CallOf;
    if issued != [] {
      var n := |issued| - 1;
      var front, rest := issued[..n], Children(records, issued[..n], p);
      ChildrenInOrder(records, front, p, changes);
      forall i | 0 <= i < |rest| ensures CallOf(changes, rest[i]) < CallOf(changes, issued[n]) {
        assert rest[i] in front;
      }
    }
  }

  /** After any history the list of a registered domain has exactly the registered domains that
      name it as their parent, in the order they were registered. */
  lemma ListsFollowTheCalls(changes: seq<Change>, p: string)
    requires PossibleHistory(UNREGISTERED, changes)
    ensures var lists := AfterHistory(UNREGISTERED, map[], changes).1;
      (p in lists <==> RecordOf(changes, p).Some?) &&
      (p in lists ==>
         Ascending(lists[p], changes) &&
         forall c :: c in lists[p] <==> RecordOf(changes, c).Some? && RecordOf(changes, c).value.parent == Some(p))
  {
    hide AfterHistory, PossibleHistory, RecordOf, WorldOf, Ascending, WellFormed;
    var (f, lists) := AfterHistory(UNREGISTERED, map[], changes);
    HistoryKeepsConsistent(UNREGISTERED, map[], changes);
    RecordsFollowTheCalls(changes, p);
    IssuedInOrder(changes);
    ChildrenInOrder(f.records, f.issued, p, changes);
    forall c ensures p in lists ==>
      (c in lists[p] <==> RecordOf(changes, c).Some? && RecordOf(changes, c).value.parent == Some(p))
    {
      PointersStayInStep(changes, p, c);
      RecordsFollowTheCalls(changes, c);
    }
  }
}
