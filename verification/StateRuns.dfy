/** Snapshots of the state tree as nested data, and whole runs of the state manager. */
module StateRuns {
  import opened Prelude
  import opened StateTree

  // ----- Snapshots -----

  datatype Snap = Snap(name: string, content: Content, children: map<string, Snap>)

  ghost predicate HasPath(s: Snap, p: seq<string>)
    decreases s
  {
    p == [] || (p[0] in s.children && HasPath(s.children[p[0]], p[1..]))
  }

  ghost function At(s: Snap, p: seq<string>): Snap
    requires HasPath(s, p)
    decreases s
  {
    if p == [] then s else At(s.children[p[0]], p[1..])
  }

  ghost function PathsOf(s: Snap): set<seq<string>>
    decreases s
  {
    {[]} + set c, q | c in s.children && q in PathsOf(s.children[c]) :: [c] + q
  }

  lemma {:induction false} PathsExactly(s: Snap, p: seq<string>)
    ensures p in PathsOf(s) <==> HasPath(s, p)
    decreases s
  {
    if p != [] {
      assert p == [p[0]] + p[1..];
      if p[0] in s.children {
        PathsExactly(s.children[p[0]], p[1..]);
      }
      forall c, q | c in s.children && q in PathsOf(s.children[c]) && p == [c] + q ensures p[0] == c && p[1..] == q {
      }
    }
  }

  /** The tree that nested data stands for. */
  ghost function Flatten(s: Snap): map<seq<string>, Content> {
    map p | p in PathsOf(s) :: PathsExactly(s, p); At(s, p).content
  }

  lemma FlattenExactly(s: Snap)
    ensures forall p :: p in Flatten(s) <==> HasPath(s, p)
    ensures forall p :: p in Flatten(s) ==> Flatten(s)[p] == At(s, p).content
  {
    forall p ensures p in PathsOf(s) <==> HasPath(s, p) {
      PathsExactly(s, p);
    }
  }

  /** Each child is stored under its own name. */
  ghost predicate WellNamed(s: Snap)
    decreases s
  {
    forall c :: c in s.children ==> s.children[c].name == c && WellNamed(s.children[c])
  }

  ghost function Serialize(t: map<seq<string>, Content>, name: string, at: seq<string>): Snap
    requires at in t
    decreases Below(t, at)
  {
    Snap(name, t[at], map n | n in ChildNames(t, at) :: ChildNamesExactly(t, at, n); BelowShrinks(t, at, n); Serialize(t, n, at + [n]))
  }

  lemma StepDown(at: seq<string>, p: seq<string>)
    requires p != []
    ensures at + p == (at + [p[0]]) + p[1..] && Prefix(at + [p[0]], at + p)
    ensures |p| > 1 ==> p[1..] != [] && p[1..][|p| - 2] == p[|p| - 1]
  {
  }

  lemma {:induction false} SerializeHolds(t: map<seq<string>, Content>, name: string, at: seq<string>, p: seq<string>)
    requires Rooted(t) && at in t
    ensures HasPath(Serialize(t, name, at), p) <==> at + p in t
    ensures at + p in t ==>
      (At(Serialize(t, name, at), p).content == t[at + p] &&
       At(Serialize(t, name, at), p).name == if p == [] then name else p[|p| - 1])
    decreases |p|
  {
    hide ChildNames;
    if p == [] {
      assert at + p == at;
    } else {
      var n := p[0];
      ChildNamesExactly(t, at, n);
      StepDown(at, p);
      if at + [n] in t {
        SerializeHolds(t, n, at + [n], p[1..]);
      } else if at + p in t {
        PrefixIsPresent(t, at + p, at + [n]);
      }
    }
  }

  lemma {:induction false} SerializeIsWellNamed(t: map<seq<string>, Content>, name: string, at: seq<string>)
    requires Rooted(t) && at in t
    ensures WellNamed(Serialize(t, name, at))
    decreases Below(t, at)
  {
    forall n | n in ChildNames(t, at) ensures at + [n] in t && WellNamed(Serialize(t, n, at + [n])) {
      ChildNamesExactly(t, at, n);
      BelowShrinks(t, at, n);
      SerializeIsWellNamed(t, n, at + [n]);
    }
  }

  /** Serializing and reading back gives the same nodes with the same contents and names. */
  lemma SnapshotRoundTrip(t: map<seq<string>, Content>, name: string)
    requires Rooted(t)
    ensures Flatten(Serialize(t, name, [])) == t && WellNamed(Serialize(t, name, []))
    ensures forall p :: p in t ==>
      HasPath(Serialize(t, name, []), p) && At(Serialize(t, name, []), p).name == if p == [] then name else p[|p| - 1]
  {
    var s := Serialize(t, name, []);
    SerializeIsWellNamed(t, name, []);
    FlattenExactly(s);
    forall p ensures (HasPath(s, p) <==> p in t) &&
                     (p in t ==> At(s, p).content == t[p] && At(s, p).name == if p == [] then name else p[|p| - 1]) {
      SerializeHolds(t, name, [], p);
      assert [] + p == p;
    }
  }

  // ----- The state manager -----

  datatype Update = Update(path: string, oldValue: Value, newValue: Value, domain: string, priority: int)

  datatype World = World(
    tree: map<seq<string>, Content>,
    log: seq<Update>,
    snapshots: map<string, map<seq<string>, Content>>,
    access: map<string, set<string>>
  )

  datatype Step =
    | Updating(path: string, value: Value, domain: string, priority: int)
    | Reading(path: string)
    | Resolving(path: string, value: Value, domain: string)
    | Snapping(id: string)
    | Restoring(id: string)
    | Restricting(path: string, domains: set<string>)

  ghost const START := World(map[[] := BLANK], [], map[], map[])

  ghost predicate Allowed(w: World, path: string, domain: string) {
    path in w.access ==> domain in w.access[path]
  }

  ghost function Written(t: map<seq<string>, Content>, path: string, value: Value, domain: string): map<seq<string>, Content>
    requires Rooted(t)
  {
    TouchExactly(t, Split(path));
    Assign(Touch(t, Split(path)), Split(path), value, domain)
  }

  ghost function Apply(w: World, s: Step): World
    requires Rooted(w.tree)
  {
    match s
    case Updating(path, value, domain, priority) =>
      if !Allowed(w, path, domain) then w else
        TouchExactly(w.tree, Split(path));
        var oldValue := Touch(w.tree, Split(path))[Split(path)].value;
        w.(tree := Written(w.tree, path, value, domain), log := w.log + [Update(path, oldValue, value, domain, priority)])
    case Reading(path) => if path == "" then w else w.(tree := Touch(w.tree, Split(path)))
    case Resolving(path, value, domain) => w.(tree := Written(w.tree, path, value, domain))
    case Snapping(id) => w.(snapshots := w.snapshots[id := w.tree])
    case Restoring(id) => if id in w.snapshots then w.(tree := w.snapshots[id]) else w
    case Restricting(path, domains) => w.(access := w.access[path := domains])
  }

  ghost predicate Sane(w: World) {
    Rooted(w.tree) && forall id :: id in w.snapshots ==> Rooted(w.snapshots[id])
  }

  lemma ApplyKeepsSane(w: World, s: Step)
    requires Sane(w)
    ensures Sane(Apply(w, s))
  {
    if !s.Snapping? && !s.Restoring? && !s.Restricting? {
      TouchExactly(w.tree, Split(s.path));
    }
  }

  ghost function Run(w: World, steps: seq<Step>): (r: World)
    requires Sane(w)
    ensures Sane(r)
    decreases |steps|
  {
    if steps == [] then w else
      ApplyKeepsSane(w, steps[0]);
      Run(Apply(w, steps[0]), steps[1..])
  }

  // ----- The audit log replays to the tree -----

  ghost function Count(log: seq<Update>, p: seq<string>): nat {
    if log == [] then 0 else
      Count(log[..|log| - 1], p) + if Split(log[|log| - 1].path) == p then 1 else 0
  }

  /** The last value written at a path, or nothing. */
  ghost function Last(log: seq<Update>, p: seq<string>): Value {
    if log == [] then Null
    else if Split(log[|log| - 1].path) == p then log[|log| - 1].newValue
    else Last(log[..|log| - 1], p)
  }

  ghost predicate NodesReplay(t: map<seq<string>, Content>, log: seq<Update>) {
    forall p :: if p in t then t[p].version == Count(log, p) && t[p].value == Last(log, p)
                else Count(log, p) == 0 && Last(log, p) == Null
  }

  ghost predicate OldValuesReplay(log: seq<Update>) {
    forall i :: 0 <= i < |log| ==> log[i].oldValue == Last(log[..i], Split(log[i].path))
  }

  ghost predicate Unrestored(steps: seq<Step>) {
    forall s :: s in steps ==> !s.Restoring? && !s.Resolving?
  }

  lemma AppendCounts(log: seq<Update>, u: Update, p: seq<string>)
    ensures Count(log + [u], p) == Count(log, p) + if Split(u.path) == p then 1 else 0
    ensures Last(log + [u], p) == if Split(u.path) == p then u.newValue else Last(log, p)
  {
    assert (log + [u])[..|log|] == log;
  }

  lemma TouchKeepsReplay(t: map<seq<string>, Content>, log: seq<Update>, p: seq<string>)
    requires Rooted(t) && NodesReplay(t, log)
    ensures Rooted(Touch(t, p)) && NodesReplay(Touch(t, p), log)
  {
    TouchExactly(t, p);
  }

  lemma WriteKeepsReplay(t: map<seq<string>, Content>, log: seq<Update>, u: Update)
    requires Rooted(t) && NodesReplay(t, log)
    ensures NodesReplay(Written(t, u.path, u.newValue, u.domain), log + [u])
  {
    hide Touch, Count, Last, Split;
    var p := Split(u.path);
    TouchKeepsReplay(t, log, p);
    TouchExactly(t, p);
    forall q ensures Count(log + [u], q) == Count(log, q) + (if p == q then 1 else 0) &&
                     Last(log + [u], q) == if p == q then u.newValue else Last(log, q) {
      AppendCounts(log, u, q);
    }
  }

  lemma LoggingKeepsOldValues(log: seq<Update>, u: Update)
    requires OldValuesReplay(log) && u.oldValue == Last(log, Split(u.path))
    ensures OldValuesReplay(log + [u])
  {
    hide Last;
    var after := log + [u];
    assert after[..|log|] == log;
    forall i | 0 <= i < |after| ensures after[i].oldValue == Last(after[..i], Split(after[i].path)) {
      assert i < |log| ==> after[..i] == log[..i];
    }
  }

  lemma ApplyKeepsReplay(w: World, s: Step)
    requires Sane(w) && NodesReplay(w.tree, w.log) && OldValuesReplay(w.log) && !s.Restoring? && !s.Resolving?
    ensures NodesReplay(Apply(w, s).tree, Apply(w, s).log) && OldValuesReplay(Apply(w, s).log)
  {
    match s
    case Updating(path, value, domain, priority) =>
      if Allowed(w, path, domain) {
        TouchKeepsReplay(w.tree, w.log, Split(path));
        TouchExactly(w.tree, Split(path));
        var u := Apply(w, s).log[|w.log|];
        WriteKeepsReplay(w.tree, w.log, u);
        assert u.oldValue == Last(w.log, Split(u.path));
        LoggingKeepsOldValues(w.log, u);
      }
    case Reading(path) => TouchKeepsReplay(w.tree, w.log, Split(path));
    case Snapping(_) =>
    case Restricting(_, _) =>
  }

  /** In any run of updates, reads and snapshots each node's version is the number of log
      entries at its path, its value is that of the last of them, and each entry's old value
      is the new value of the one before it at the same path. */
  lemma {:induction false} LogReplaysToTree(w: World, steps: seq<Step>)
    requires Sane(w) && NodesReplay(w.tree, w.log) && OldValuesReplay(w.log) && Unrestored(steps)
    ensures NodesReplay(Run(w, steps).tree, Run(w, steps).log) && OldValuesReplay(Run(w, steps).log)
    decreases |steps|
  {
    if steps != [] {
      assert steps[0] in steps;
      ApplyKeepsSane(w, steps[0]);
      ApplyKeepsReplay(w, steps[0]);
      LogReplaysToTree(Apply(w, steps[0]), steps[1..]);
    }
  }

  lemma StartReplays()
    ensures Sane(START) && NodesReplay(START.tree, START.log) && OldValuesReplay(START.log)
  {
  }

  /** Resolving a conflict writes without logging, after which the log replays no more: the
      node's version exceeds its number of entries. */
  lemma ResolutionIsNotLogged(w: World, path: string, value: Value, domain: string)
    requires Sane(w) && NodesReplay(w.tree, w.log)
    ensures !NodesReplay(Apply(w, Resolving(path, value, domain)).tree, w.log)
  {
    var p := Split(path);
    TouchKeepsReplay(w.tree, w.log, p);
    TouchExactly(w.tree, p);
    var after := Apply(w, Resolving(path, value, domain)).tree;
    assert after[p].version == Count(w.log, p) + 1;
  }

  // ----- Snapshots survive whatever follows -----

  /** Generated snapshot ids are fresh. */
  ghost predicate FreshIds(w: World, steps: seq<Step>)
    requires Sane(w)
    decreases |steps|
  {
    steps == [] ||
    ((steps[0].Snapping? ==> steps[0].id !in w.snapshots) &&
     (ApplyKeepsSane(w, steps[0]); FreshIds(Apply(w, steps[0]), steps[1..])))
  }

  lemma {:induction false} SnapshotIsKept(w: World, id: string, steps: seq<Step>)
    requires Sane(w) && id in w.snapshots && FreshIds(w, steps)
    ensures id in Run(w, steps).snapshots && Run(w, steps).snapshots[id] == w.snapshots[id]
    decreases |steps|
  {
    if steps != [] {
      ApplyKeepsSane(w, steps[0]);
      SnapshotIsKept(Apply(w, steps[0]), id, steps[1..]);
    }
  }

  /** Restoring a snapshot after any later updates, reads, resolutions, snapshots and restores
      shows at every path what it showed when the snapshot was taken. */
  lemma RestoreBringsBack(w: World, id: string, steps: seq<Step>, p: seq<string>)
    requires Sane(w) && FreshIds(w, [Snapping(id)] + steps)
    ensures var after := Apply(Run(Apply(w, Snapping(id)), steps), Restoring(id));
      after.tree == w.tree && Observe(after.tree, p) == Observe(w.tree, p)
  {
    assert ([Snapping(id)] + steps)[1..] == steps;
    ApplyKeepsSane(w, Snapping(id));
    SnapshotIsKept(Apply(w, Snapping(id)), id, steps);
  }

  // ----- What a tree replays when it is restored or resolved -----

  /** The manager, the writes its tree has taken in, logged or not, and those each snapshot had. */
  datatype History = History(world: World, lineage: seq<Update>, kept: map<string, seq<Update>>)

  ghost const BEGINNING := History(START, [], map[])

  ghost function Follow(h: History, s: Step): History
    requires Sane(h.world) && h.kept.Keys == h.world.snapshots.Keys
  {
    var next := Apply(h.world, s);
    match s
    case Updating(path, value, domain, priority) =>
      if Allowed(h.world, path, domain) then History(next, h.lineage + [next.log[|h.world.log|]], h.kept) else h
    case Resolving(path, value, domain) => History(next, h.lineage + [Update(path, Null, value, domain, 0)], h.kept)
    case Snapping(id) => History(next, h.lineage, h.kept[id := h.lineage])
    case Restoring(id) => History(next, if id in h.kept then h.kept[id] else h.lineage, h.kept)
    case _ => h.(world := next)
  }

  /** Every tree replays its own lineage. */
  ghost predicate Descended(h: History) {
    Sane(h.world) && h.kept.Keys == h.world.snapshots.Keys &&
    NodesReplay(h.world.tree, h.lineage) &&
    forall id <- h.kept :: NodesReplay(h.world.snapshots[id], h.kept[id])
  }

  lemma FollowKeepsDescended(h: History, s: Step)
    requires Descended(h)
    ensures Descended(Follow(h, s))
  {
    hide NodesReplay, Written, Touch;
    ApplyKeepsSane(h.world, s);
    match s
    case Updating(path, value, domain, priority) =>
      if Allowed(h.world, path, domain) {
        var u := Apply(h.world, s).log[|h.world.log|];
        WriteKeepsReplay(h.world.tree, h.lineage, u);
      }
    case Resolving(path, value, domain) =>
      WriteKeepsReplay(h.world.tree, h.lineage, Update(path, Null, value, domain, 0));
    case Reading(path) => TouchKeepsReplay(h.world.tree, h.lineage, Split(path));
    case _ =>
  }

  ghost function FollowAll(h: History, steps: seq<Step>): (r: History)
    requires Descended(h)
    ensures Descended(r)
    decreases |steps|
  {
    if steps == [] then h else
      FollowKeepsDescended(h, steps[0]);
      FollowAll(Follow(h, steps[0]), steps[1..])
  }

  lemma BeginningIsDescended()
    ensures Descended(BEGINNING)
  {
  }

  /** As many writes at every path, and the same last value. */
  ghost predicate SameWrites(a: seq<Update>, b: seq<Update>) {
    forall p :: Count(a, p) == Count(b, p) && Last(a, p) == Last(b, p)
  }

  /** After any steps, resolutions and restores among them, the log replays to the tree exactly
      when it agrees at every path, in number and in last value, with the writes the tree has
      taken in. */
  lemma LogReplaysExactlyWhenWritesAgree(steps: seq<Step>)
    ensures Descended(BEGINNING)
    ensures var h := FollowAll(BEGINNING, steps);
      h.world == Run(START, steps) &&
      (NodesReplay(h.world.tree, h.world.log) <==> SameWrites(h.lineage, h.world.log))
  {
    BeginningIsDescended();
    FollowAllRuns(BEGINNING, steps);
    var h := FollowAll(BEGINNING, steps);
    ReplaysTheSame(h.world.tree, h.lineage, h.world.log);
  }

  lemma ReplaysTheSame(t: map<seq<string>, Content>, a: seq<Update>, b: seq<Update>)
    requires NodesReplay(t, a)
    ensures NodesReplay(t, b) <==> SameWrites(a, b)
  {
    hide Count, Last;
    if NodesReplay(t, b) {
      forall p ensures Count(a, p) == Count(b, p) && Last(a, p) == Last(b, p) {
        if p in t {
          assert t[p].version == Count(a, p) == Count(b, p);
        }
      }
    }
  }

  /** The tree has taken in whatever is logged at each path, and, if `more`, something besides. */
  ghost predicate TookIn(h: History, more: bool) {
    (forall p :: Count(h.world.log, p) <= Count(h.lineage, p)) &&
    (more ==> exists p :: Count(h.world.log, p) < Count(h.lineage, p))
  }

  lemma FollowKeepsTookIn(h: History, s: Step, more: bool)
    requires Descended(h) && TookIn(h, more) && !s.Restoring?
    ensures TookIn(Follow(h, s), more || s.Resolving?)
  {
    hide Count, NodesReplay, Written, Touch;
    var after := Follow(h, s);
    match s
    case Updating(path, value, domain, priority) =>
      if Allowed(h.world, path, domain) {
        var u := after.world.log[|h.world.log|];
        forall p ensures Count(after.world.log, p) - Count(h.world.log, p) == Count(after.lineage, p) - Count(h.lineage, p) {
          AppendCounts(h.lineage, u, p);
          AppendCounts(h.world.log, u, p);
        }
      }
    case Resolving(path, value, domain) =>
      var u := Update(path, Null, value, domain, 0);
      forall p ensures Count(after.lineage, p) == Count(h.lineage, p) + if Split(path) == p then 1 else 0 {
        AppendCounts(h.lineage, u, p);
      }
      assert Count(after.world.log, Split(path)) < Count(after.lineage, Split(path));
    case _ =>
  }

  lemma {:induction false} RunKeepsTookIn(h: History, steps: seq<Step>, more: bool)
    requires Descended(h) && TookIn(h, more) && forall s <- steps :: !s.Restoring?
    ensures TookIn(FollowAll(h, steps), more || exists s <- steps :: s.Resolving?)
    decreases |steps|
  {
    hide NodesReplay, TookIn, Follow;
    if steps != [] {
      assert steps[0] in steps && forall s :: s in steps <==> s == steps[0] || s in steps[1..];
      FollowKeepsDescended(h, steps[0]);
      FollowKeepsTookIn(h, steps[0], more);
      RunKeepsTookIn(Follow(h, steps[0]), steps[1..], more || steps[0].Resolving?);
    }
  }

  /** In every run without restores the log replays to the tree exactly when nothing was resolved. */
  lemma UnrestoredLogReplaysExactlyWhen(steps: seq<Step>)
    requires forall s <- steps :: !s.Restoring?
    ensures Sane(START) && (NodesReplay(Run(START, steps).tree, Run(START, steps).log) <==> Unresolved(steps))
  {
    hide Run, Apply;
    StartReplays();
    if Unresolved(steps) {
      LogReplaysToTree(START, steps);
    } else {
      LogReplaysExactlyWhenWritesAgree(steps);
      RunKeepsTookIn(BEGINNING, steps, false);
    }
  }

  /** `a` is `b` with entries left out. */
  ghost predicate Thins(a: seq<Update>, b: seq<Update>) {
    if b == [] then a == []
    else Thins(a, b[..|b| - 1]) || (a != [] && a[|a| - 1] == b[|b| - 1] && Thins(a[..|a| - 1], b[..|b| - 1]))
  }

  lemma {:induction false} ThinsItself(a: seq<Update>)
    ensures Thins(a, a)
  {
    if a != [] {
      ThinsItself(a[..|a| - 1]);
    }
  }

  lemma ThinsGrows(a: seq<Update>, b: seq<Update>, u: Update)
    requires Thins(a, b)
    ensures Thins(a, b + [u]) && Thins(a + [u], b + [u])
  {
    assert (a + [u])[..|a|] == a && (b + [u])[..|b|] == b;
  }

  lemma {:induction false} ThinsCounts(a: seq<Update>, b: seq<Update>, p: seq<string>)
    requires Thins(a, b)
    ensures |a| <= |b| && Count(a, p) <= Count(b, p)
    ensures |a| == |b| ==> a == b
  {
    if b != [] {
      if Thins(a, b[..|b| - 1]) {
        ThinsCounts(a, b[..|b| - 1], p);
      } else {
        ThinsCounts(a[..|a| - 1], b[..|b| - 1], p);
        assert a == a[..|a| - 1] + [a[|a| - 1]] && b == b[..|b| - 1] + [b[|b| - 1]];
      }
    }
  }

  /** What is left out is missed at some path. */
  lemma {:induction false} ThinsMisses(a: seq<Update>, b: seq<Update>) returns (p: seq<string>)
    requires Thins(a, b) && |a| < |b|
    ensures Count(a, p) < Count(b, p)
  {
    if Thins(a, b[..|b| - 1]) {
      p := Split(b[|b| - 1].path);
      ThinsCounts(a, b[..|b| - 1], p);
    } else {
      p := ThinsMisses(a[..|a| - 1], b[..|b| - 1]);
    }
  }

  /** A tree that replays a thinned log replays the log exactly when nothing was left out. */
  lemma ThinnedReplaysExactlyWhen(t: map<seq<string>, Content>, a: seq<Update>, b: seq<Update>)
    requires NodesReplay(t, a) && Thins(a, b)
    ensures NodesReplay(t, b) <==> |a| == |b|
  {
    hide Thins, Count, Last;
    ThinsCounts(a, b, []);
    if |a| < |b| {
      var p := ThinsMisses(a, b);
    }
  }

  /** Nothing was resolved, so every lineage is the log with entries left out. */
  ghost predicate Thinned(h: History) {
    Thins(h.lineage, h.world.log) && forall id <- h.kept :: Thins(h.kept[id], h.world.log)
  }

  lemma FollowKeepsThinned(h: History, s: Step)
    requires Descended(h) && Thinned(h) && !s.Resolving?
    ensures Thinned(Follow(h, s))
  {
    hide Thins, Touch, Written;
    match s
    case Updating(path, value, domain, priority) =>
      if Allowed(h.world, path, domain) {
        var u := Apply(h.world, s).log[|h.world.log|];
        ThinsGrows(h.lineage, h.world.log, u);
        forall id | id in h.kept ensures Thins(h.kept[id], h.world.log + [u]) {
          ThinsGrows(h.kept[id], h.world.log, u);
        }
      }
    case _ =>
  }

  ghost predicate Unresolved(steps: seq<Step>) {
    forall s <- steps :: !s.Resolving?
  }

  lemma {:induction false} RunKeepsThinned(h: History, steps: seq<Step>)
    requires Descended(h) && Thinned(h) && Unresolved(steps)
    ensures Thinned(FollowAll(h, steps))
    decreases |steps|
  {
    hide NodesReplay, Thinned, Follow;
    if steps != [] {
      assert steps[0] in steps;
      assert forall s <- steps[1..] :: s in steps;
      FollowKeepsDescended(h, steps[0]);
      FollowKeepsThinned(h, steps[0]);
      RunKeepsThinned(Follow(h, steps[0]), steps[1..]);
    }
  }

  /** After any updates, reads, snapshots and restores, the log replays to the tree exactly when
      the tree has taken in as many updates as are logged: the number at the snapshot last
      restored, and those since. */
  lemma LogReplaysExactlyWhen(steps: seq<Step>)
    requires Unresolved(steps)
    ensures Descended(BEGINNING)
    ensures var h := FollowAll(BEGINNING, steps);
      h.world == Run(START, steps) &&
      (NodesReplay(h.world.tree, h.world.log) <==> |h.lineage| == |h.world.log|)
  {
    hide NodesReplay, Thins;
    BeginningIsDescended();
    FollowAllRuns(BEGINNING, steps);
    ThinsItself([]);
    RunKeepsThinned(BEGINNING, steps);
    var h := FollowAll(BEGINNING, steps);
    ThinnedReplaysExactlyWhen(h.world.tree, h.lineage, h.world.log);
  }

  lemma FollowApplies(h: History, s: Step)
    requires Descended(h)
    ensures Follow(h, s).world == Apply(h.world, s)
  {
    hide NodesReplay;
  }

  /** The history runs through the same worlds. */
  lemma {:induction false} FollowAllRuns(h: History, steps: seq<Step>)
    requires Descended(h)
    ensures FollowAll(h, steps).world == Run(h.world, steps)
    decreases |steps|
  {
    hide NodesReplay, Follow, Apply;
    if steps != [] {
      FollowKeepsDescended(h, steps[0]);
      FollowApplies(h, steps[0]);
      FollowAllRuns(Follow(h, steps[0]), steps[1..]);
    }
  }

  /** A restore finds as many updates logged as its snapshot had taken in, and nothing is resolved. */
  ghost predicate Faithful(h: History, s: Step) {
    !s.Resolving? && (s.Restoring? && s.id in h.kept ==> |h.kept[s.id]| == |h.world.log|)
  }

  ghost predicate AllFaithful(h: History, steps: seq<Step>)
    requires Descended(h)
    decreases |steps|
  {
    steps == [] ||
    (Faithful(h, steps[0]) && (FollowKeepsDescended(h, steps[0]); AllFaithful(Follow(h, steps[0]), steps[1..])))
  }

  lemma FaithfulKeepsLineage(h: History, s: Step)
    requires Descended(h) && Thinned(h) && Faithful(h, s)
    requires h.lineage == h.world.log && OldValuesReplay(h.world.log)
    ensures Follow(h, s).lineage == Follow(h, s).world.log && OldValuesReplay(Follow(h, s).world.log)
  {
    hide Thins;
    match s
    case Restoring(id) =>
      if id in h.kept {
        ThinsCounts(h.kept[id], h.world.log, []);
      }
    case Updating(path, value, domain, priority) => ApplyKeepsReplay(h.world, s);
    case _ =>
  }

  /** With such restores the run keeps the log replaying to the tree, and each entry's old value is
      the new value of the one before it at the same path. */
  lemma {:induction false} LogReplaysThroughRestores(h: History, steps: seq<Step>)
    requires Descended(h) && Thinned(h) && AllFaithful(h, steps)
    requires h.lineage == h.world.log && OldValuesReplay(h.world.log)
    ensures var r := FollowAll(h, steps);
      r.lineage == r.world.log && NodesReplay(r.world.tree, r.world.log) && OldValuesReplay(r.world.log)
    decreases |steps|
  {
    hide Thinned, Follow, OldValuesReplay, NodesReplay;
    if steps != [] {
      FollowKeepsDescended(h, steps[0]);
      FollowKeepsThinned(h, steps[0]);
      FaithfulKeepsLineage(h, steps[0]);
      LogReplaysThroughRestores(Follow(h, steps[0]), steps[1..]);
    }
  }

  lemma {:induction false} CountGrows(log: seq<Update>, n: nat, p: seq<string>)
    requires n <= |log|
    ensures Count(log[..n], p) <= Count(log, p)
    decreases |log|
  {
    if n < |log| {
      CountGrows(log[..|log| - 1], n, p);
      assert log[..|log| - 1][..n] == log[..n];
    } else {
      assert log[..n] == log;
    }
  }

  /** A tree that replays the beginning of a log replays the log exactly when that is all of it. */
  lemma PrefixReplaysExactlyWhen(t: map<seq<string>, Content>, log: seq<Update>, n: nat)
    requires n <= |log| && NodesReplay(t, log[..n])
    ensures NodesReplay(t, log) <==> n == |log|
  {
    if n == |log| {
      assert log[..n] == log;
    } else {
      var p := Split(log[n].path);
      AppendCounts(log[..n], log[n], p);
      assert log[..n] + [log[n]] == log[..n + 1];
      CountGrows(log, n + 1, p);
    }
  }

  lemma ApplyLogs(w: World, s: Step)
    requires Sane(w)
    ensures w.log <= Apply(w, s).log
  {
    hide Written, Touch;
  }

  lemma {:induction false} LogGrows(w: World, steps: seq<Step>)
    requires Sane(w)
    ensures w.log <= Run(w, steps).log
    decreases |steps|
  {
    hide Apply;
    if steps != [] {
      ApplyLogs(w, steps[0]);
      ApplyKeepsSane(w, steps[0]);
      LogGrows(Apply(w, steps[0]), steps[1..]);
    }
  }

  /** Restoring a snapshot that the log replayed to, after any other steps, leaves the log
      replaying to the tree exactly when nothing was logged since the snapshot. */
  lemma RestoreReplaysExactlyWhen(w: World, id: string, steps: seq<Step>)
    requires Sane(w) && NodesReplay(w.tree, w.log) && FreshIds(w, [Snapping(id)] + steps)
    ensures var after := Apply(Run(Apply(w, Snapping(id)), steps), Restoring(id));
      NodesReplay(after.tree, after.log) <==> |after.log| == |w.log|
  {
    hide NodesReplay, Observe, FreshIds;
    ApplyKeepsSane(w, Snapping(id));
    RestoreBringsBack(w, id, steps, []);
    LogGrows(Apply(w, Snapping(id)), steps);
    var after := Apply(Run(Apply(w, Snapping(id)), steps), Restoring(id));
    assert after.log[..|w.log|] == w.log;
    PrefixReplaysExactlyWhen(w.tree, after.log, |w.log|);
  }

  /** So restoring a snapshot after one update already breaks the replay. */
  lemma RestoreAfterUpdateBreaksReplay(w: World, id: string, path: string, value: Value, domain: string, priority: int)
    requires Sane(w) && NodesReplay(w.tree, w.log) && id !in w.snapshots && Allowed(w, path, domain)
    ensures var after := Run(w, [Snapping(id), Updating(path, value, domain, priority), Restoring(id)]);
      !NodesReplay(after.tree, after.log)
  {
    hide NodesReplay, Written, Touch;
    var snap, update, restore := Snapping(id), Updating(path, value, domain, priority), Restoring(id);
    var v := Apply(w, snap);
    ApplyKeepsSane(w, snap);
    ApplyKeepsSane(v, update);
    var after := Apply(Apply(v, update), restore);
    ThreeSteps(w, snap, update, restore);
    assert after.tree == w.tree && |after.log| == |w.log| + 1 && after.log[..|w.log|] == w.log;
    PrefixReplaysExactlyWhen(after.tree, after.log, |w.log|);
  }

  lemma ThreeSteps(w: World, first: Step, second: Step, third: Step)
    requires Sane(w)
    ensures Sane(Apply(w, first)) && Sane(Apply(Apply(w, first), second))
    ensures Run(w, [first, second, third]) == Apply(Apply(Apply(w, first), second), third)
  {
    hide Apply, Run;
    ApplyKeepsSane(w, first);
    ApplyKeepsSane(Apply(w, first), second);
    RunFirst(w, first, [second, third]);
    RunFirst(Apply(w, first), second, [third]);
    RunFirst(Apply(Apply(w, first), second), third, []);
    assert [first] + [second, third] == [first, second, third] && [second] + [third] == [second, third];
    assert [third] + [] == [third];
    RunNothing(Apply(Apply(Apply(w, first), second), third));
  }

  lemma RunNothing(w: World)
    requires Sane(w)
    ensures Run(w, []) == w
  {
  }

  lemma RunFirst(w: World, first: Step, rest: seq<Step>)
    requires Sane(w)
    ensures Sane(Apply(w, first))
    ensures Run(w, [first] + rest) == Run(Apply(w, first), rest)
  {
    hide Apply;
    ApplyKeepsSane(w, first);
    assert ([first] + rest)[1..] == rest;
  }

  /** An update's record of the old value is that of the last entry at its path exactly when the
      node holds it. */
  lemma UpdateKeepsOldValuesExactlyWhen(w: World, path: string, value: Value, domain: string, priority: int)
    requires Sane(w) && OldValuesReplay(w.log) && Allowed(w, path, domain)
    ensures Split(path) in Touch(w.tree, Split(path))
    ensures OldValuesReplay(Apply(w, Updating(path, value, domain, priority)).log) <==>
            Touch(w.tree, Split(path))[Split(path)].value == Last(w.log, Split(path))
  {
    hide Last;
    TouchExactly(w.tree, Split(path));
    var u := Apply(w, Updating(path, value, domain, priority)).log[|w.log|];
    assert (w.log + [u])[..|w.log|] == w.log;
    if u.oldValue == Last(w.log, Split(path)) {
      LoggingKeepsOldValues(w.log, u);
    }
  }
}
