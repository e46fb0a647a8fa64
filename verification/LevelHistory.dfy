/** What any calls leave in a level of the lattice, read off the calls alone: its events, which are
    pending and which committed, and its state. */
module LevelHistory {
  import opened Prelude
  import opened Lattice

  datatype Call = Adding(event: LatticeEvent) | Committing(id: string)

  ghost const EMPTY := LevelState([], map[], {}, [], map[])

  /** A level of some domains after some calls. */
  ghost function After(domains: set<string>, calls: seq<Call>): LevelState {
    if calls == [] then EMPTY else
      var l, c := After(domains, calls[..|calls| - 1]), calls[|calls| - 1];
      match c
      case Adding(e) => if e.domainId in domains then Added(l, e) else l
      case Committing(id) => if id in l.pending then Committed(l, id) else l
  }

  // ----- The calls that name an event -----

  /** The call adds an event of the level's domains under the identifier. */
  ghost function Adds(domains: set<string>, id: string): Call -> bool {
    (c: Call) => c.Adding? && c.event.domainId in domains && c.event.eventId == id
  }

  ghost function Commits(id: string): Call -> bool {
    (c: Call) => c.Committing? && c.id == id
  }

  /** The event waiting under an identifier: the last one added, unless it was committed since. */
  ghost function Waiting(domains: set<string>, calls: seq<Call>, id: string): Option<LatticeEvent> {
    var i := LastIndex(calls, Adds(domains, id));
    if i > LastIndex(calls, Commits(id)) then Some(calls[i].event) else None
  }

  ghost function Accepted(domains: set<string>, calls: seq<Call>): seq<LatticeEvent> {
    if calls == [] then [] else
      var rest, c := Accepted(domains, calls[..|calls| - 1]), calls[|calls| - 1];
      if c.Adding? && c.event.domainId in domains then rest + [c.event] else rest
  }

  /** The events committed, in order: each commit of an identifier takes the event waiting under it. */
  ghost function Done(domains: set<string>, calls: seq<Call>): seq<LatticeEvent> {
    if calls == [] then [] else
      var front, c := calls[..|calls| - 1], calls[|calls| - 1];
      if c.Committing? && Waiting(domains, front, c.id).Some? then Done(domains, front) + [Waiting(domains, front, c.id).value]
      else Done(domains, front)
  }

  ghost function HasKey(key: string): LatticeEvent -> bool {
    (e: LatticeEvent) => e.stateKey == key
  }

  ghost predicate PendingTells(l: LevelState, domains: set<string>, calls: seq<Call>) {
    forall id :: var e := Waiting(domains, calls, id);
      if e.Some? then id in l.pending && l.pending[id] == e.value else id !in l.pending
  }

  /** Each key has the value of the last event committed with it. */
  ghost predicate StateTells(state: map<string, string>, done: seq<LatticeEvent>) {
    forall key :: var i := LastIndex(done, HasKey(key));
      if i >= 0 then key in state && state[key] == done[i].stateValue else key !in state
  }

  lemma WaitingAppends(domains: set<string>, calls: seq<Call>, c: Call, id: string)
    ensures Waiting(domains, calls + [c], id) ==
      if Adds(domains, id)(c) then Some(c.event) else if Commits(id)(c) then None else Waiting(domains, calls, id)
  {
    LastIndexAppends(calls, c, Adds(domains, id));
    LastIndexAppends(calls, c, Commits(id));
    hide LastIndex;
    assert LastIndex(calls, Adds(domains, id)) < |calls| && LastIndex(calls, Commits(id)) < |calls|;
  }

  lemma CallKeepsPending(l: LevelState, domains: set<string>, calls: seq<Call>, c: Call)
    requires PendingTells(l, domains, calls)
    ensures c.Adding? && c.event.domainId in domains ==> PendingTells(Added(l, c.event), domains, calls + [c])
    ensures c.Adding? && c.event.domainId !in domains ==> PendingTells(l, domains, calls + [c])
    ensures c.Committing? && c.id in l.pending ==> PendingTells(Committed(l, c.id), domains, calls + [c])
    ensures c.Committing? && c.id !in l.pending ==> PendingTells(l, domains, calls + [c])
  {
    hide Waiting;
    forall id ensures Waiting(domains, calls + [c], id) ==
      if Adds(domains, id)(c) then Some(c.event) else if Commits(id)(c) then None else Waiting(domains, calls, id)
    {
      WaitingAppends(domains, calls, c, id);
    }
  }

  lemma StateTellsMore(state: map<string, string>, done: seq<LatticeEvent>, e: LatticeEvent)
    requires StateTells(state, done)
    ensures StateTells(state[e.stateKey := e.stateValue], done + [e])
  {
    hide LastIndex;
    forall key ensures var i := LastIndex(done + [e], HasKey(key)); var after := state[e.stateKey := e.stateValue];
      if i >= 0 then key in after && after[key] == (done + [e])[i].stateValue else key !in after
    {
      LastIndexAppends(done, e, HasKey(key));
      assert LastIndex(done, HasKey(key)) < |done|;
    }
  }

  /** After any calls a level has exactly the events added that are of its domains, in order. Under
      an identifier the last one added waits until it is committed; the identifiers committed are
      those of the events that were taken so, and each key of the state has the value of the last
      of those events with that key. */
  lemma {:induction false} LevelFollowsTheCalls(domains: set<string>, calls: seq<Call>)
    ensures var l := After(domains, calls);
      l.events == Accepted(domains, calls) && PendingTells(l, domains, calls) &&
      l.committed == Ids(Done(domains, calls)) &&
      StateTells(l.state, Done(domains, calls))
    ensures forall id, e :: Waiting(domains, calls, id) == Some(e) ==> e.eventId == id
  {
    hide Waiting, PendingTells, StateTells;
    forall id, e | Waiting(domains, calls, id) == Some(e) ensures e.eventId == id {
      WaitsUnderItsOwn(domains, calls, id);
    }
    if calls == [] {
      NothingTold(domains);
    } else {
      var front, c := calls[..|calls| - 1], calls[|calls| - 1];
      assert calls == front + [c];
      LevelFollowsTheCalls(domains, front);
      var l := After(domains, front);
      CallKeepsPending(l, domains, front, c);
      if c.Committing? {
        PendingIsWaiting(l, domains, front, c.id);
        if c.id in l.pending {
          var e := l.pending[c.id];
          StateTellsMore(l.state, Done(domains, front), e);
          WaitsUnderItsOwn(domains, front, c.id);
          IdsGrow(Done(domains, front), e);
        }
      }
    }
  }

  lemma WaitsUnderItsOwn(domains: set<string>, calls: seq<Call>, id: string)
    ensures Waiting(domains, calls, id).Some? ==> Waiting(domains, calls, id).value.eventId == id
  {
  }

  lemma PendingIsWaiting(l: LevelState, domains: set<string>, calls: seq<Call>, id: string)
    requires PendingTells(l, domains, calls)
    ensures id in l.pending <==> Waiting(domains, calls, id).Some?
    ensures id in l.pending ==> Waiting(domains, calls, id) == Some(l.pending[id])
  {
    hide Waiting;
  }

  lemma NothingTold(domains: set<string>)
    ensures PendingTells(After(domains, []), domains, []) && StateTells(After(domains, []).state, Done(domains, []))
  {
  }
}
