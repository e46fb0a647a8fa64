/** The hierarchical lattice: levels that commit events, a log whose events share their
    domain's mutable clock, conflict detection over that log, and the causality walk. */
module Lattice {
  import opened Prelude
  import opened VectorClocks

  datatype EventType = StateUpdate | StateCommit | ConsensusProposal | ConsensusVote | DomainSync | ConflictResolution

  class LatticeEvent {
    const eventId: string
    const eventType: EventType
    const domainId: string
    const stateKey: string
    const stateValue: string
    const parentEvents: seq<string>
    var vectorClock: VectorClock

    constructor (eventId: string, eventType: EventType, domainId: string, stateKey: string, stateValue: string, parentEvents: seq<string>)
      ensures this.eventId == eventId && this.eventType == eventType && this.domainId == domainId
      ensures this.stateKey == stateKey && this.stateValue == stateValue && this.parentEvents == parentEvents
    {
      this.eventId, this.eventType, this.domainId := eventId, eventType, domainId;
      this.stateKey, this.stateValue, this.parentEvents := stateKey, stateValue, parentEvents;
      vectorClock := new VectorClock();
    }
  }

  // ----- Levels -----

  ghost function Ids(events: seq<LatticeEvent>): set<string> {
    set e | e in events :: e.eventId
  }

  /** The state left by committing events in order. */
  ghost function Replay(commits: seq<LatticeEvent>): map<string, string> {
    if commits == [] then map[] else
      var e := commits[|commits| - 1];
      Replay(commits[..|commits| - 1])[e.stateKey := e.stateValue]
  }

  datatype LevelState = LevelState(
    events: seq<LatticeEvent>,
    pending: map<string, LatticeEvent>,
    committed: set<string>,
    commits: seq<LatticeEvent>,
    state: map<string, string>
  )

  /** Every added event is pending or committed, and the state is the replay of the commits. */
  ghost predicate Settled(l: LevelState, domains: set<string>) {
    Ids(l.events) == l.pending.Keys + l.committed &&
    (forall id :: id in l.pending ==> l.pending[id] in l.events && l.pending[id].eventId == id) &&
    (forall e :: e in l.events ==> e.domainId in domains) &&
    (forall e :: e in l.commits ==> e in l.events) &&
    l.committed == Ids(l.commits) && l.state == Replay(l.commits)
  }

  ghost function Added(l: LevelState, e: LatticeEvent): LevelState {
    l.(events := l.events + [e], pending := l.pending[e.eventId := e])
  }

  ghost function Committed(l: LevelState, id: string): LevelState
    requires id in l.pending
  {
    var e := l.pending[id];
    LevelState(l.events, l.pending - {id}, l.committed + {id}, l.commits + [e], l.state[e.stateKey := e.stateValue])
  }

  lemma AddKeepsSettled(l: LevelState, domains: set<string>, e: LatticeEvent)
    requires Settled(l, domains) && e.domainId in domains
    ensures Settled(Added(l, e), domains)
  {
    IdsGrow(l.events, e);
  }

  lemma CommitKeepsSettled(l: LevelState, domains: set<string>, id: string)
    requires Settled(l, domains) && id in l.pending
    ensures Settled(Committed(l, id), domains)
  {
    IdsGrow(l.commits, l.pending[id]);
    assert (l.commits + [l.pending[id]])[..|l.commits|] == l.commits;
  }

  class LatticeLevel {
    const level: int
    const name: string
    const domains: set<string>
    var state: map<string, string>
    var events: seq<LatticeEvent>
    var committedEvents: set<string>
    var pendingEvents: map<string, LatticeEvent>
    ghost var commits: seq<LatticeEvent>

    ghost function View(): LevelState
      reads this
    {
      LevelState(events, pendingEvents, committedEvents, commits, state)
    }

    ghost predicate Valid()
      reads this
    {
      Settled(View(), domains)
    }

    constructor (level: int, name: string, domains: set<string>)
      ensures Valid() && this.level == level && this.name == name && this.domains == domains
      ensures View() == LevelState([], map[], {}, [], map[])
    {
      this.level, this.name, this.domains := level, name, domains;
      state, events, committedEvents, pendingEvents, commits := map[], [], {}, map[], [];
    }

    method AddEvent(event: LatticeEvent) returns (added: bool)
      requires Valid()
      modifies this
      ensures Valid()
      ensures added == (event.domainId in domains)
      ensures View() == if added then Added(old(View()), event) else old(View())
    {
      if event.domainId !in domains {
        return false;
      }
      AddKeepsSettled(View(), domains, event);
      hide Settled;
      events := events + [event];
      pendingEvents := pendingEvents[event.eventId := event];
      return true;
    }

    method CommitEvent(eventId: string) returns (done: bool)
      requires Valid()
      modifies this
      ensures Valid()
      ensures done == (eventId in old(pendingEvents))
      ensures View() == if done then Committed(old(View()), eventId) else old(View())
    {
      if eventId !in pendingEvents {
        return false;
      }
      CommitKeepsSettled(View(), domains, eventId);
      hide Settled;
      var event := pendingEvents[eventId];
      state := state[event.stateKey := event.stateValue];
      committedEvents := committedEvents + {eventId};
      pendingEvents := pendingEvents - {eventId};
      commits := commits + [event];
      return true;
    }
  }

  lemma IdsGrow(events: seq<LatticeEvent>, event: LatticeEvent)
    ensures Ids(events + [event]) == Ids(events) + {event.eventId}
  {
    assert forall e :: e in events + [event] <==> e in events || e == event;
    assert event in events + [event];
  }

  // ----- Conflicts -----

  function Keys(log: seq<LatticeEvent>): (keys: seq<string>)
    ensures |keys| == |log| && forall i :: 0 <= i < |log| ==> keys[i] == log[i].stateKey
  {
    seq(|log|, i requires 0 <= i < |log| => log[i].stateKey)
  }

  /** The index pairs (i, k) with i < k < j and one state key. */
  ghost function PairsOf(keys: seq<string>, i: nat, j: nat): seq<(nat, nat)>
    requires i < j <= |keys|
  {
    if j == i + 1 then [] else
      PairsOf(keys, i, j - 1) + if keys[i] == keys[j - 1] then [(i, j - 1)] else []
  }

  ghost function SameKeyPairs(keys: seq<string>, n: nat): seq<(nat, nat)>
    requires n <= |keys|
  {
    if n == 0 then [] else SameKeyPairs(keys, n - 1) + PairsOf(keys, n - 1, |keys|)
  }

  lemma {:induction false} PairsOfMembers(keys: seq<string>, i: nat, j: nat, p: (nat, nat))
    requires i < j <= |keys|
    ensures p in PairsOf(keys, i, j) <==> p.0 == i < p.1 < j && keys[i] == keys[p.1]
  {
    if j > i + 1 {
      PairsOfMembers(keys, i, j - 1, p);
    }
  }

  lemma AppendIsOrdered(ps: seq<(nat, nat)>, q: (nat, nat))
    requires PairsAscend(ps) && forall p :: p in ps ==> PairBefore(p, q)
    ensures PairsAscend(ps + [q])
  {
  }

  lemma {:induction false} PairsOfOrdered(keys: seq<string>, i: nat, j: nat)
    requires i < j <= |keys|
    ensures PairsAscend(PairsOf(keys, i, j)) && forall p :: p in PairsOf(keys, i, j) ==> p.0 == i && p.1 < j
  {
    if j > i + 1 {
      PairsOfOrdered(keys, i, j - 1);
      AppendIsOrdered(PairsOf(keys, i, j - 1), (i, j - 1));
    }
  }

  lemma JoinIsOrdered(first: seq<(nat, nat)>, second: seq<(nat, nat)>, n: nat)
    requires PairsAscend(first) && PairsAscend(second)
    requires (forall p :: p in first ==> p.0 < n) && (forall p :: p in second ==> p.0 == n)
    ensures PairsAscend(first + second)
  {
    var all := first + second;
    forall a, b | 0 <= a < b < |all| ensures PairBefore(all[a], all[b]) {
      if a < |first| && b >= |first| {
        assert all[a] in first && all[b] in second;
      }
    }
  }

  ghost predicate Conflicting(keys: seq<string>, n: nat, p: (nat, nat)) {
    p.0 < n && p.0 < p.1 < |keys| && keys[p.0] == keys[p.1]
  }

  lemma {:induction false} SameKeyPairsMembers(keys: seq<string>, n: nat, p: (nat, nat))
    requires n <= |keys|
    ensures p in SameKeyPairs(keys, n) <==> Conflicting(keys, n, p)
  {
    hide PairsOf;
    if n > 0 {
      SameKeyPairsMembers(keys, n - 1, p);
      PairsOfMembers(keys, n - 1, |keys|, p);
    }
  }

  /** Each pair of log positions with one state key is listed once, in log order. */
  lemma {:induction false} SameKeyPairsExactly(keys: seq<string>, n: nat)
    requires n <= |keys|
    ensures PairsAscend(SameKeyPairs(keys, n))
    ensures forall p :: p in SameKeyPairs(keys, n) <==> Conflicting(keys, n, p)
  {
    hide PairsOf;
    forall p ensures p in SameKeyPairs(keys, n) <==> Conflicting(keys, n, p) {
      SameKeyPairsMembers(keys, n, p);
    }
    if n > 0 {
      SameKeyPairsExactly(keys, n - 1);
      assert forall p :: p in SameKeyPairs(keys, n - 1) ==> p.0 < n - 1;
      PairsOfOrdered(keys, n - 1, |keys|);
      JoinIsOrdered(SameKeyPairs(keys, n - 1), PairsOf(keys, n - 1, |keys|), n - 1);
    }
  }

  ghost predicate InLog(log: seq<LatticeEvent>, ps: seq<(nat, nat)>) {
    forall a :: 0 <= a < |ps| ==> ps[a].0 < |log| && ps[a].1 < |log|
  }

  ghost function PairUp(log: seq<LatticeEvent>, ps: seq<(nat, nat)>): seq<(LatticeEvent, LatticeEvent)>
    requires InLog(log, ps)
  {
    seq(|ps|, a requires 0 <= a < |ps| => (log[ps[a].0], log[ps[a].1]))
  }

  lemma PairsAreInLog(log: seq<LatticeEvent>, i: nat, j: nat)
    requires i < j <= |log|
    ensures InLog(log, PairsOf(Keys(log), i, j))
  {
    PairsOfOrdered(Keys(log), i, j);
    var ps := PairsOf(Keys(log), i, j);
    assert forall a :: 0 <= a < |ps| ==> ps[a] in ps;
  }

  lemma {:induction false} AllPairsAreInLog(log: seq<LatticeEvent>, n: nat)
    requires n <= |log|
    ensures InLog(log, SameKeyPairs(Keys(log), n))
  {
    if n > 0 {
      AllPairsAreInLog(log, n - 1);
      PairsAreInLog(log, n - 1, |log|);
    }
  }

  /** The first event of the log with an id, or -1. */
  function Lookup(log: seq<LatticeEvent>, id: string): (i: int)
    ensures -1 <= i < |log|
    ensures i >= 0 ==> log[i].eventId == id
    ensures forall j :: 0 <= j < |log| && (i < 0 || j < i) ==> log[j].eventId != id
  {
    if log == [] then -1 else
      var i := Lookup(log[..|log| - 1], id);
      if i >= 0 then i else if log[|log| - 1].eventId == id then |log| - 1 else -1
  }

  function WorldName(worldDomainId: Option<string>): string {
    if worldDomainId.Some? && worldDomainId.value != "" then worldDomainId.value else "world"
  }

  /** Appending an event with the state key of another makes a pair of the two. */
  lemma AppendedPairs(log: seq<LatticeEvent>, i: nat, w: LatticeEvent)
    requires i < |log| && w.stateKey == log[i].stateKey
    ensures var after := log + [w];
      InLog(after, SameKeyPairs(Keys(after), |after|)) &&
      (log[i], w) in PairUp(after, SameKeyPairs(Keys(after), |after|))
  {
    hide SameKeyPairs;
    var after := log + [w];
    AllPairsAreInLog(after, |after|);
    var ps := SameKeyPairs(Keys(after), |after|);
    SameKeyPairsMembers(Keys(after), |after|, (i, |log|));
    var a :| 0 <= a < |ps| && ps[a] == (i, |log|);
    assert PairUp(after, ps)[a] == (log[i], w);
  }

  // ----- The shared clocks -----

  ghost function Submissions(log: seq<LatticeEvent>, d: string): nat {
    if log == [] then 0 else
      Submissions(log[..|log| - 1], d) + if log[|log| - 1].domainId == d then 1 else 0
  }

  lemma SubmissionsGrow(log: seq<LatticeEvent>, e: LatticeEvent, d: string)
    ensures Submissions(log + [e], d) == Submissions(log, d) + if e.domainId == d then 1 else 0
  {
    assert (log + [e])[..|log|] == log;
  }

  ghost predicate Tallied(log: seq<LatticeEvent>, counts: map<string, nat>) {
    (forall e :: e in log ==> e.domainId in counts) &&
    forall d :: d in counts ==> counts[d] == Submissions(log, d) && counts[d] > 0
  }

  ghost function Bumped(counts: map<string, nat>, d: string): map<string, nat> {
    counts[d := (if d in counts then counts[d] else 0) + 1]
  }

  lemma BumpedClock(counts: map<string, nat>, d: string)
    ensures Incremented(if d in counts then map[d := counts[d]] else map[], d) == map[d := Bumped(counts, d)[d]]
  {
  }

  lemma BumpKeepsTallied(log: seq<LatticeEvent>, counts: map<string, nat>, e: LatticeEvent)
    requires Tallied(log, counts)
    ensures Tallied(log + [e], Bumped(counts, e.domainId))
    ensures e.domainId in Bumped(counts, e.domainId)
  {
    forall d ensures Submissions(log + [e], d) == Submissions(log, d) + if e.domainId == d then 1 else 0 {
      SubmissionsGrow(log, e, d);
    }
    if e.domainId !in counts {
      NoSubmissions(log, e.domainId);
    }
  }

  /** Two clocks of one entry each are concurrent when the entries are of different domains,
      and a clock is concurrent with itself. */
  lemma SingleEntriesAreConcurrent(d: string, n: nat, e: string, m: nat)
    requires n > 0 && m > 0 && (d == e ==> n == m)
    ensures Concurrent(map[d := n], map[e := m])
  {
    var a, b := map[d := n], map[e := m];
    if d != e {
      assert At(a, d) > At(b, d) && At(b, e) > At(a, e);
    }
  }

  /** The lowest level that has a domain, if any does. */
  ghost predicate IsLowest(levels: map<int, LatticeLevel>, d: string, l: int) {
    l in levels && d in levels[l].domains && forall k :: k in levels && d in levels[k].domains ==> l <= k
  }

  ghost predicate Somewhere(levels: map<int, LatticeLevel>, d: string) {
    exists l :: l in levels && d in levels[l].domains
  }

  method Pick<T>(s: set<T>) returns (x: T)
    requires s != {}
    ensures x in s
  {
    x :| x in s;
  }

  method Least(s: set<int>) returns (m: int)
    requires s != {}
    ensures m in s && forall k :: k in s ==> m <= k
  {
    m := Pick(s);
    var rest := s - {m};
    while rest != {}
      invariant m in s && rest <= s && forall k :: k in s && k !in rest ==> m <= k
      decreases rest
    {
      var k := Pick(rest);
      rest := rest - {k};
      if k < m {
        m := k;
      }
    }
  }

  class WorldKernelLattice {
    var levels: map<int, LatticeLevel>
    var worldDomainId: Option<string>
    var eventLog: seq<LatticeEvent>
    var vectorClocks: map<string, VectorClock>
    ghost var submissions: map<string, nat>

    /** Each domain's clock counts that domain's submissions and nothing else. */
    ghost predicate Counting(counts: map<string, nat>)
      reads this`vectorClocks, vectorClocks.Values
    {
      vectorClocks.Keys == counts.Keys &&
      forall d {:trigger vectorClocks[d]} :: d in vectorClocks ==> vectorClocks[d].clock == map[d := counts[d]]
    }

    /** Each logged event's clock is the one object of its domain. */
    ghost predicate Sharing()
      reads this`eventLog, this`vectorClocks, eventLog
    {
      forall e :: e in eventLog ==> e.domainId in vectorClocks && e.vectorClock == vectorClocks[e.domainId]
    }

    ghost predicate ClocksShared()
      reads this`eventLog, this`vectorClocks, this`submissions, eventLog, vectorClocks.Values
    {
      Tallied(eventLog, submissions) && Counting(submissions) && Sharing()
    }

    ghost predicate LevelsValid()
      reads this`levels, levels.Values
    {
      forall l {:trigger levels[l]} :: l in levels ==> levels[l].level == l && levels[l].Valid()
    }

    constructor ()
      ensures ClocksShared() && LevelsValid() && eventLog == [] && levels == map[] && vectorClocks == map[]
    {
      levels, worldDomainId, eventLog, vectorClocks, submissions := map[], None, [], map[], map[];
    }

    method CreateLevel(level: int, name: string, domains: set<string>) returns (created: bool)
      requires LevelsValid()
      modifies this`levels
      ensures LevelsValid()
      ensures created == (level !in old(levels))
      ensures !created ==> levels == old(levels)
      ensures created ==> level in levels && fresh(levels[level]) && levels == old(levels)[level := levels[level]] &&
                          levels[level].name == name && levels[level].domains == domains &&
                          levels[level].View() == LevelState([], map[], {}, [], map[])
      ensures fresh(levels.Values - old(levels.Values))
      ensures old(ClocksShared()) ==> ClocksShared()
    {
      if level in levels {
        return false;
      }
      var l := new LatticeLevel(level, name, domains);
      levels := levels[level := l];
      return true;
    }

    /** A domain's clock, made on first use. */
    method ClockOf(d: string) returns (clock: VectorClock)
      requires Counting(submissions)
      modifies this`vectorClocks
      ensures vectorClocks == old(vectorClocks)[d := clock]
      ensures if d in old(vectorClocks) then clock == old(vectorClocks)[d] else fresh(clock) && clock.clock == map[]
      ensures forall k :: k in vectorClocks && k != d ==> vectorClocks[k] != clock
      ensures fresh(vectorClocks.Values - old(vectorClocks.Values))
    {
      if d !in vectorClocks {
        clock := new VectorClock();
        vectorClocks := vectorClocks[d := clock];
      } else {
        clock := vectorClocks[d];
        assert forall k :: k in vectorClocks && k != d ==> k in vectorClocks[k].clock && k !in clock.clock;
      }
    }

    /** Advances a domain's clock. */
    method Tick(d: string)
      requires Counting(submissions)
      modifies this`vectorClocks, this`submissions, vectorClocks.Values
      ensures Counting(submissions) && submissions == Bumped(old(submissions), d)
      ensures d in vectorClocks && vectorClocks == old(vectorClocks)[d := vectorClocks[d]]
      ensures d in old(vectorClocks) ==> vectorClocks[d] == old(vectorClocks)[d]
      ensures fresh(vectorClocks.Values - old(vectorClocks.Values))
    {
      hide Incremented;
      ghost var counts := submissions;
      var clock := ClockOf(d);
      submissions := Bumped(submissions, d);
      BumpedClock(counts, d);
      clock.Increment(d);
      forall k | k in vectorClocks ensures vectorClocks[k].clock == map[k := submissions[k]] {
        if k != d {
          assert k in counts && vectorClocks[k] != clock;
        }
      }
    }

    /** Advances the clock of the event's domain, shares it with the event, and logs the event. */
    method Stamp(event: LatticeEvent)
      requires ClocksShared()
      modifies this`eventLog, this`vectorClocks, this`submissions, event, vectorClocks.Values
      ensures ClocksShared() && eventLog == old(eventLog) + [event]
      ensures fresh(vectorClocks.Values - old(vectorClocks.Values))
    {
      hide Tallied, Bumped, Counting;
      BumpKeepsTallied(eventLog, submissions, event);
      Tick(event.domainId);
      event.vectorClock := vectorClocks[event.domainId];
      eventLog := eventLog + [event];
    }

    method DetermineLevel(domainId: string) returns (level: int)
      ensures Somewhere(levels, domainId) ==> IsLowest(levels, domainId, level)
      ensures !Somewhere(levels, domainId) ==> level == 3
    {
      var todo := levels.Keys;
      while todo != {}
        invariant todo <= levels.Keys
        invariant forall l :: l in levels && l !in todo ==> domainId !in levels[l].domains
        decreases todo
      {
        var l := Least(todo);
        if domainId in levels[l].domains {
          return l;
        }
        todo := todo - {l};
      }
      return 3;
    }

    method AddToLevel(event: LatticeEvent) returns (added: bool)
      requires LevelsValid()
      modifies levels.Values
      ensures LevelsValid()
      ensures added == Somewhere(levels, event.domainId)
      ensures forall l {:trigger levels[l]} :: l in levels ==>
        levels[l].View() == if IsLowest(levels, event.domainId, l) then Added(old(levels[l].View()), event) else old(levels[l].View())
    {
      var targetLevel := DetermineLevel(event.domainId);
      if targetLevel !in levels {
        return false;
      }
      added := levels[targetLevel].AddEvent(event);
    }

    /** Every event is logged; it is added to a level, the lowest that has its domain, exactly
        when some level has it. */
    method SubmitEvent(event: LatticeEvent) returns (added: bool)
      requires ClocksShared() && LevelsValid()
      modifies this`eventLog, this`vectorClocks, this`submissions, event, vectorClocks.Values, levels.Values
      ensures ClocksShared() && LevelsValid() && eventLog == old(eventLog) + [event]
      ensures fresh(vectorClocks.Values - old(vectorClocks.Values))
      ensures added == Somewhere(levels, event.domainId)
      ensures forall l {:trigger levels[l]} :: l in levels ==>
        levels[l].View() == if IsLowest(levels, event.domainId, l) then Added(old(levels[l].View()), event) else old(levels[l].View())
    {
      hide Tallied, Counting, Sharing, Settled, IsLowest, Added;
      Stamp(event);
      added := AddToLevel(event);
    }

    ghost predicate Holds(l: int, k: string)
      reads this`levels, levels.Values
    {
      l in levels && k in levels[l].state
    }

    /** The deepest of the levels outside `todo` that hold a key. */
    ghost predicate IsDeepest(l: int, k: string, todo: set<int>)
      reads this`levels, levels.Values
    {
      l !in todo && Holds(l, k) && forall m :: m !in todo && Holds(m, k) ==> m <= l
    }

    /** The merged state of all levels, or of one key when it is not empty: where levels
        disagree it is the deepest that is heard, not the world's. */
    method GetGlobalState(key: string) returns (globalState: map<string, string>)
      ensures forall k :: k in globalState <==> (key == "" || k == key) && exists l :: Holds(l, k)
      ensures forall k, l :: k in globalState && IsDeepest(l, k, {}) ==> globalState[k] == levels[l].state[k]
    {
      globalState := map[];
      var todo := levels.Keys;
      while todo != {}
        invariant todo <= levels.Keys
        invariant forall a, b :: a in levels && a !in todo && b in todo ==> a < b
        invariant forall k :: k in globalState <==> (key == "" || k == key) && exists l :: l !in todo && Holds(l, k)
        invariant forall k, l :: k in globalState && IsDeepest(l, k, todo) ==> globalState[k] == levels[l].state[k]
        decreases todo
      {
        var l := Least(todo);
        var levelState := levels[l].state;
        ghost var before, merged := todo, globalState;
        if key != "" {
          if key in levelState {
            globalState := globalState[key := levelState[key]];
          }
        } else {
          globalState := globalState + levelState;
        }
        todo := todo - {l};
        forall k, m | k in globalState && IsDeepest(m, k, todo) ensures globalState[k] == levels[m].state[k] {
          if m != l {
            assert !Holds(l, k);
            assert IsDeepest(m, k, before);
          }
        }
      }
    }

    /** Propagation submits to the world domain an event that names the found one as parent;
        `freshId` is the generated identifier. */
    method PropagateToWorld(eventId: string, freshId: string) returns (added: bool)
      requires ClocksShared() && LevelsValid()
      modifies this`eventLog, this`vectorClocks, this`submissions, vectorClocks.Values, levels.Values
      ensures ClocksShared() && LevelsValid()
      ensures fresh(vectorClocks.Values - old(vectorClocks.Values))
      ensures var i := Lookup(old(eventLog), eventId);
        if i < 0 then
          !added && eventLog == old(eventLog) &&
          forall l {:trigger levels[l]} :: l in levels ==> levels[l].View() == old(levels[l].View())
        else
          |eventLog| == |old(eventLog)| + 1 && eventLog[..|old(eventLog)|] == old(eventLog) &&
          var w := eventLog[|old(eventLog)|];
          fresh(w) && w.eventId == freshId && w.eventType == StateCommit && w.parentEvents == [eventId] &&
          w.domainId == (if worldDomainId.Some? && worldDomainId.value != "" then worldDomainId.value else "world") &&
          w.stateKey == eventLog[i].stateKey && w.stateValue == eventLog[i].stateValue &&
          added == Somewhere(levels, w.domainId) &&
          forall l {:trigger levels[l]} :: l in levels ==>
            levels[l].View() == if IsLowest(levels, w.domainId, l) then Added(old(levels[l].View()), w) else old(levels[l].View())
    {
      hide Tallied, Counting, Sharing, Settled, IsLowest, Added;
      var i := Lookup(eventLog, eventId);
      if i < 0 {
        return false;
      }
      var event := eventLog[i];
      var worldEvent := new LatticeEvent(freshId, StateCommit, WorldName(worldDomainId), event.stateKey, event.stateValue, [eventId]);
      added := SubmitEvent(worldEvent);
    }

    /** Any two logged events have concurrent clocks. */
    lemma LoggedAreConcurrent(i: nat, j: nat)
      requires ClocksShared() && i < |eventLog| && j < |eventLog|
      ensures Concurrent(eventLog[i].vectorClock.clock, eventLog[j].vectorClock.clock)
    {
      var d, e := eventLog[i].domainId, eventLog[j].domainId;
      assert eventLog[i] in eventLog && eventLog[j] in eventLog;
      SingleEntriesAreConcurrent(d, submissions[d], e, submissions[e]);
    }

    /** Though it compares clocks, the detector reports every pair with one state key. */
    method DetectConflicts() returns (conflicts: seq<(LatticeEvent, LatticeEvent)>)
      requires ClocksShared()
      ensures InLog(eventLog, SameKeyPairs(Keys(eventLog), |eventLog|))
      ensures conflicts == PairUp(eventLog, SameKeyPairs(Keys(eventLog), |eventLog|))
    {
      hide PairsOf;
      conflicts := [];
      AllPairsAreInLog(eventLog, 0);
      for i := 0 to |eventLog|
        invariant InLog(eventLog, SameKeyPairs(Keys(eventLog), i))
        invariant conflicts == PairUp(eventLog, SameKeyPairs(Keys(eventLog), i))
      {
        var found := ConflictsWith(i);
        PairUpJoins(eventLog, SameKeyPairs(Keys(eventLog), i), PairsOf(Keys(eventLog), i, |eventLog|));
        AllPairsAreInLog(eventLog, i + 1);
        conflicts := conflicts + found;
      }
    }

    /** Hence an event propagated to the world is always reported as conflicting with the one it
        was propagated from, although that one is its declared cause. */
    method ConflictsAfterPropagation(eventId: string, freshId: string) returns (conflicts: seq<(LatticeEvent, LatticeEvent)>)
      requires ClocksShared() && LevelsValid()
      modifies this`eventLog, this`vectorClocks, this`submissions, vectorClocks.Values, levels.Values
      ensures ClocksShared() && LevelsValid()
      ensures fresh(vectorClocks.Values - old(vectorClocks.Values))
      ensures var i := Lookup(old(eventLog), eventId);
        i >= 0 ==>
          |eventLog| == |old(eventLog)| + 1 && eventLog[|old(eventLog)|].parentEvents == [eventId] &&
          (old(eventLog)[i], eventLog[|old(eventLog)|]) in conflicts
    {
      hide Tallied, Counting, Sharing, Settled, IsLowest, Added, SameKeyPairs, PairUp;
      ghost var log, i := eventLog, Lookup(eventLog, eventId);
      var added := PropagateToWorld(eventId, freshId);
      if i >= 0 {
        assert eventLog == log + [eventLog[|log|]];
        AppendedPairs(log, i, eventLog[|log|]);
      }
      conflicts := DetectConflicts();
    }

    /** The inner loop: the conflicts of one event with later ones. */
    method ConflictsWith(i: nat) returns (found: seq<(LatticeEvent, LatticeEvent)>)
      requires ClocksShared() && i < |eventLog|
      ensures InLog(eventLog, PairsOf(Keys(eventLog), i, |eventLog|))
      ensures found == PairUp(eventLog, PairsOf(Keys(eventLog), i, |eventLog|))
    {
      hide PairsOf, PairUp, InLog, Keys;
      found := [];
      NoPairs(eventLog, i);
      for j := i + 1 to |eventLog|
        invariant InLog(eventLog, PairsOf(Keys(eventLog), i, j))
        invariant found == PairUp(eventLog, PairsOf(Keys(eventLog), i, j))
      {
        var event1, event2 := eventLog[i], eventLog[j];
        PairsNext(eventLog, i, j);
        if event1.stateKey == event2.stateKey {
          LoggedAreConcurrent(i, j);
          var concurrent := event1.vectorClock.ConcurrentWith(event2.vectorClock);
          if concurrent {
            found := found + [(event1, event2)];
          }
        }
      }
    }
  }

  lemma NoPairs(log: seq<LatticeEvent>, i: nat)
    requires i < |log|
    ensures InLog(log, PairsOf(Keys(log), i, i + 1)) && PairUp(log, PairsOf(Keys(log), i, i + 1)) == []
  {
  }

  lemma PairsNext(log: seq<LatticeEvent>, i: nat, j: nat)
    requires i < j < |log|
    ensures InLog(log, PairsOf(Keys(log), i, j)) && InLog(log, PairsOf(Keys(log), i, j + 1))
    ensures PairUp(log, PairsOf(Keys(log), i, j + 1)) ==
            PairUp(log, PairsOf(Keys(log), i, j)) + if log[i].stateKey == log[j].stateKey then [(log[i], log[j])] else []
  {
    PairsAreInLog(log, i, j);
    PairsAreInLog(log, i, j + 1);
    PairUpJoins(log, PairsOf(Keys(log), i, j), [(i, j)]);
  }

  /** Whatever events are submitted, in whatever order, the log is those events in that order. */
  method SubmitAll(lattice: WorldKernelLattice, events: seq<LatticeEvent>)
    requires lattice.ClocksShared() && lattice.LevelsValid()
    modifies lattice`eventLog, lattice`vectorClocks, lattice`submissions, events, lattice.vectorClocks.Values, lattice.levels.Values
    ensures lattice.ClocksShared() && lattice.LevelsValid() && lattice.eventLog == old(lattice.eventLog) + events
    ensures fresh(lattice.vectorClocks.Values - old(lattice.vectorClocks.Values))
  {
    hide WorldKernelLattice.ClocksShared, WorldKernelLattice.LevelsValid;
    for i := 0 to |events|
      invariant lattice.ClocksShared() && lattice.LevelsValid() && lattice.eventLog == old(lattice.eventLog) + events[..i]
      invariant fresh(lattice.vectorClocks.Values - old(lattice.vectorClocks.Values))
    {
      assert events[i] in events && events[..i + 1] == events[..i] + [events[i]];
      var _ := lattice.SubmitEvent(events[i]);
    }
  }

  /** Over any run of submissions to a new lattice the detector reports just the pairs with one
      state key: nothing that happened before is ever left out. */
  method ConflictsOfRun(events: seq<LatticeEvent>) returns (conflicts: seq<(LatticeEvent, LatticeEvent)>)
    modifies events
    ensures InLog(events, SameKeyPairs(Keys(events), |events|))
    ensures conflicts == PairUp(events, SameKeyPairs(Keys(events), |events|))
  {
    var lattice := new WorldKernelLattice();
    hide WorldKernelLattice.ClocksShared, WorldKernelLattice.LevelsValid, SameKeyPairs;
    SubmitAll(lattice, events);
    assert lattice.eventLog == events;
    conflicts := lattice.DetectConflicts();
  }

  lemma PairUpJoins(log: seq<LatticeEvent>, ps: seq<(nat, nat)>, qs: seq<(nat, nat)>)
    requires InLog(log, ps) && InLog(log, qs)
    ensures InLog(log, ps + qs) && PairUp(log, ps + qs) == PairUp(log, ps) + PairUp(log, qs)
  {
  }

  lemma {:induction false} NoSubmissions(log: seq<LatticeEvent>, d: string)
    requires forall e :: e in log ==> e.domainId != d
    ensures Submissions(log, d) == 0
  {
    if log != [] {
      assert log[|log| - 1] in log;
      NoSubmissions(log[..|log| - 1], d);
    }
  }
}
