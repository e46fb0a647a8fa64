/** What any run leaves in the state manager, read off its steps alone: who may write, what is
    logged, and which nodes there are with which contents. */
module StateHistory {
  import opened Prelude
  import opened StateTree
  import opened StateRuns

  // ----- Who may write -----

  ghost function Restricts(path: string): Step -> bool {
    (s: Step) => s.Restricting? && s.path == path
  }

  /** The last set of domains given for the path, if any was, lists the domain. */
  ghost predicate Admitted(steps: seq<Step>, path: string, domain: string) {
    var i := LastIndex(steps, Restricts(path));
    i >= 0 ==> domain in steps[i].domains
  }

  ghost predicate AccessTells(w: World, steps: seq<Step>) {
    forall path :: var i := LastIndex(steps, Restricts(path));
      if i >= 0 then path in w.access && w.access[path] == steps[i].domains else path !in w.access
  }

  lemma RunAppends(w: World, steps: seq<Step>, s: Step)
    requires Sane(w)
    ensures Run(w, steps + [s]) == Apply(Run(w, steps), s)
    decreases |steps|
  {
    hide Apply;
    var all := steps + [s];
    if steps == [] {
      assert all[0] == s && all[1..] == [];
      ApplyKeepsSane(w, s);
    } else {
      assert all[0] == steps[0] && all[1..] == steps[1..] + [s];
      ApplyKeepsSane(w, steps[0]);
      RunAppends(Apply(w, steps[0]), steps[1..], s);
    }
  }

  lemma ApplyKeeps(w: World, s: Step)
    requires Sane(w)
    ensures Apply(w, s).access == if s.Restricting? then w.access[s.path := s.domains] else w.access
    ensures Apply(w, s).snapshots == if s.Snapping? then w.snapshots[s.id := w.tree] else w.snapshots
  {
    hide Written, Touch, Split;
  }

  lemma ApplyKeepsAccess(w: World, steps: seq<Step>, s: Step)
    requires Sane(w) && AccessTells(w, steps)
    ensures AccessTells(Apply(w, s), steps + [s])
  {
    hide LastIndex, Apply;
    ApplyKeeps(w, s);
    forall path ensures var i := LastIndex(steps + [s], Restricts(path)); var access := Apply(w, s).access;
      if i >= 0 then path in access && access[path] == (steps + [s])[i].domains else path !in access
    {
      LastIndexAppends(steps, s, Restricts(path));
      assert LastIndex(steps, Restricts(path)) < |steps|;
    }
  }

  lemma {:induction false} AccessFollowsTheSteps(steps: seq<Step>)
    ensures Sane(START) && AccessTells(Run(START, steps), steps)
  {
    StartReplays();
    hide Apply, Run, AccessTells, Sane;
    if steps == [] {
      NoAccess();
    } else {
      var front, s := steps[..|steps| - 1], steps[|steps| - 1];
      assert steps == front + [s];
      AccessFollowsTheSteps(front);
      RunAppends(START, front, s);
      ApplyKeepsAccess(Run(START, front), front, s);
    }
  }

  lemma NoAccess()
    ensures Sane(START) && AccessTells(Run(START, []), [])
  {
  }

  /** In every run an update is taken in exactly when the last set of domains given for its path,
      if any was, lists its domain; it is then logged as asked with the value its node held, and
      otherwise nothing changes. */
  lemma UpdateIsTakenInExactlyWhen(steps: seq<Step>, path: string, value: Value, domain: string, priority: int)
    ensures Sane(START)
    ensures var w := Run(START, steps);
      var after := Apply(w, Updating(path, value, domain, priority));
      (after != w <==> Admitted(steps, path, domain)) &&
      (Admitted(steps, path, domain) ==>
         |after.log| == |w.log| + 1 && after.log[..|w.log|] == w.log &&
         after.log[|w.log|] == Update(path, if Split(path) in w.tree then w.tree[Split(path)].value else Null, value, domain, priority))
  {
    AccessFollowsTheSteps(steps);
    TouchExactly(Run(START, steps).tree, Split(path));
    assert Prefix(Split(path), Split(path));
    hide Run, Written, Touch, Split, LastIndex;
    var i := LastIndex(steps, Restricts(path));
    assert i < |steps|;
  }

  // ----- What is logged -----

  /** The updates that were taken in, in order. */
  ghost function TakenIn(steps: seq<Step>): seq<Step> {
    if steps == [] then [] else
      var front, s := steps[..|steps| - 1], steps[|steps| - 1];
      if s.Updating? && Admitted(front, s.path, s.domain) then TakenIn(front) + [s] else TakenIn(front)
  }

  ghost predicate LogTells(log: seq<Update>, updates: seq<Step>) {
    |log| == |updates| && forall i :: 0 <= i < |log| ==>
      updates[i] == Updating(log[i].path, log[i].newValue, log[i].domain, log[i].priority)
  }

  /** In every run the log has exactly the updates taken in, in order, each as it was asked for:
      resolutions, restores and whatever else happens leave it as it is. */
  lemma {:induction false} LogFollowsTheSteps(steps: seq<Step>)
    ensures Sane(START) && LogTells(Run(START, steps).log, TakenIn(steps))
  {
    StartReplays();
    hide Run, Written, Touch, Split, Admitted, Sane, Allowed;
    if steps == [] {
      NothingLogged();
    } else {
      var front, s := steps[..|steps| - 1], steps[|steps| - 1];
      assert steps == front + [s];
      LogFollowsTheSteps(front);
      RunAppends(START, front, s);
      if s.Updating? {
        UpdateIsTakenInExactlyWhen(front, s.path, s.value, s.domain, s.priority);
      }
    }
  }

  lemma NothingLogged()
    ensures Sane(START) && Run(START, []).log == []
  {
  }

  lemma {:induction false} TakenInWasAdmitted(steps: seq<Step>, i: nat)
    requires i < |TakenIn(steps)|
    ensures exists k :: 0 <= k < |steps| && steps[k] == TakenIn(steps)[i] && steps[k].Updating? && Admitted(steps[..k], steps[k].path, steps[k].domain)
  {
    hide Admitted;
    var front, s := steps[..|steps| - 1], steps[|steps| - 1];
    if i < |TakenIn(front)| {
      TakenInWasAdmitted(front, i);
      var k :| 0 <= k < |front| && front[k] == TakenIn(front)[i] && front[k].Updating? && Admitted(front[..k], front[k].path, front[k].domain);
      assert steps[..k] == front[..k] && steps[k] == front[k];
    }
  }

  /** Hence each log entry is some update of the run whose domain was in the set last given for its
      path before it, if any was. */
  lemma EntriesWereAdmitted(steps: seq<Step>, i: nat)
    requires Sane(START) && i < |Run(START, steps).log|
    ensures var u := Run(START, steps).log[i];
      exists k :: 0 <= k < |steps| && steps[k] == Updating(u.path, u.newValue, u.domain, u.priority) && Admitted(steps[..k], u.path, u.domain)
  {
    hide Admitted, Run, TakenIn;
    LogFollowsTheSteps(steps);
    TakenInWasAdmitted(steps, i);
  }

  // ----- Which nodes there are, and with which contents -----

  ghost function Snaps(id: string): Step -> bool {
    (s: Step) => s.Snapping? && s.id == id
  }

  /** The steps that made the tree what it is: the updates taken in, the resolutions, and the reads
      of a path, a restore going back to those before its snapshot. */
  ghost function Makers(steps: seq<Step>): seq<Step>
    decreases |steps|
  {
    if steps == [] then [] else
      var front, s := steps[..|steps| - 1], steps[|steps| - 1];
      if s.Restoring? then
        var k := LastIndex(front, Snaps(s.id));
        if k >= 0 then Makers(front[..k]) else Makers(front)
      else if Shapes(front, s) then Makers(front) + [s]
      else Makers(front)
  }

  /** An update taken in, a resolution, or a read of a path. */
  ghost predicate Shapes(steps: seq<Step>, s: Step) {
    (s.Updating? && Admitted(steps, s.path, s.domain)) || s.Resolving? || (s.Reading? && s.path != "")
  }

  ghost predicate Makes(s: Step) {
    s.Updating? || s.Resolving? || s.Reading?
  }

  ghost function WritesAt(p: seq<string>): Step -> bool {
    (s: Step) => (s.Updating? || s.Resolving?) && Split(s.path) == p
  }

  ghost predicate Reached(makers: seq<Step>, p: seq<string>) {
    p == [] || exists s <- makers :: Makes(s) && Prefix(p, Split(s.path))
  }

  /** A node's version is how often it was written, and its value and owner are those of the last write. */
  ghost function ContentOf(makers: seq<Step>, p: seq<string>): Content {
    var i := LastIndex(makers, WritesAt(p));
    if i < 0 then Content(Null, 0, "") else Content(makers[i].value, Number(makers, WritesAt(p)), makers[i].domain)
  }

  ghost predicate TreeTells(t: map<seq<string>, Content>, makers: seq<Step>) {
    forall p :: (p in t <==> Reached(makers, p)) && (p in t ==> t[p] == ContentOf(makers, p))
  }

  lemma {:induction false} NumberIsNone(makers: seq<Step>, p: seq<string>)
    ensures LastIndex(makers, WritesAt(p)) < 0 ==> Number(makers, WritesAt(p)) == 0
  {
    if makers != [] {
      NumberIsNone(makers[..|makers| - 1], p);
    }
  }

  lemma ContentAppends(makers: seq<Step>, s: Step, p: seq<string>)
    ensures ContentOf(makers + [s], p) ==
      if WritesAt(p)(s) then Content(s.value, ContentOf(makers, p).version + 1, s.domain) else ContentOf(makers, p)
  {
    LastIndexAppends(makers, s, WritesAt(p));
    NumberAppends(makers, s, WritesAt(p));
    NumberIsNone(makers, p);
    hide LastIndex, Number, Split;
  }

  lemma ReachedAppends(makers: seq<Step>, s: Step, p: seq<string>)
    requires Makes(s)
    ensures Reached(makers + [s], p) <==> Reached(makers, p) || Prefix(p, Split(s.path))
  {
    hide Split;
    assert forall m :: m in makers + [s] <==> m in makers || m == s;
  }

  lemma TouchTells(t: map<seq<string>, Content>, makers: seq<Step>, path: string)
    requires Rooted(t) && TreeTells(t, makers)
    ensures TreeTells(Touch(t, Split(path)), makers + [Reading(path)])
  {
    hide Touch, Split, Reached, ContentOf;
    TouchExactly(t, Split(path));
    forall p ensures (Reached(makers + [Reading(path)], p) <==> Reached(makers, p) || Prefix(p, Split(path))) &&
                     ContentOf(makers + [Reading(path)], p) == ContentOf(makers, p) &&
                     (!Reached(makers, p) ==> ContentOf(makers, p) == BLANK) {
      ReachedAppends(makers, Reading(path), p);
      ContentAppends(makers, Reading(path), p);
      UnreachedIsBlank(makers, p);
    }
  }

  lemma UnreachedIsBlank(makers: seq<Step>, p: seq<string>)
    ensures !Reached(makers, p) ==> ContentOf(makers, p) == BLANK
  {
    hide Split, Number;
    var i := LastIndex(makers, WritesAt(p));
    if i >= 0 {
      assert makers[i] in makers && Prefix(p, Split(makers[i].path));
    }
  }

  /** What a write leaves at one path. */
  lemma WrittenAt(t: map<seq<string>, Content>, path: string, value: Value, domain: string, p: seq<string>)
    requires Rooted(t)
    ensures var after, held := Written(t, path, value, domain), if p in t then t[p] else BLANK;
      (p in after <==> p in t || Prefix(p, Split(path))) &&
      (p in after ==> after[p] == if p == Split(path) then Content(value, held.version + 1, domain) else held)
  {
    hide Touch, Split;
    TouchExactly(t, Split(path));
    assert Prefix(Split(path), Split(path));
  }

  lemma WriteTells(t: map<seq<string>, Content>, makers: seq<Step>, s: Step)
    requires Rooted(t) && TreeTells(t, makers) && (s.Updating? || s.Resolving?)
    ensures TreeTells(Written(t, s.path, s.value, s.domain), makers + [s])
  {
    hide Touch, Split, Reached, ContentOf, Written, Rooted;
    var after := Written(t, s.path, s.value, s.domain);
    forall p ensures (p in after <==> Reached(makers + [s], p)) && (p in after ==> after[p] == ContentOf(makers + [s], p)) {
      WrittenAt(t, s.path, s.value, s.domain, p);
      ReachedAppends(makers, s, p);
      ContentAppends(makers, s, p);
      UnreachedIsBlank(makers, p);
    }
  }

  ghost predicate SnapshotTells(snapshots: map<string, map<seq<string>, Content>>, steps: seq<Step>, id: string) {
    var k := LastIndex(steps, Snaps(id));
    if k >= 0 then id in snapshots && TreeTells(snapshots[id], Makers(steps[..k])) else id !in snapshots
  }

  /** Every snapshot stands for the tree at the last step that took one under its identifier. */
  ghost predicate SnapshotsTell(w: World, steps: seq<Step>) {
    forall id :: SnapshotTells(w.snapshots, steps, id)
  }

  lemma MakersAppend(steps: seq<Step>, s: Step)
    ensures Makers(steps + [s]) ==
      if s.Restoring? then
        var k := LastIndex(steps, Snaps(s.id));
        if k >= 0 then Makers(steps[..k]) else Makers(steps)
      else if Shapes(steps, s) then Makers(steps) + [s]
      else Makers(steps)
  {
    assert (steps + [s])[..|steps|] == steps;
  }

  lemma ApplyTells(w: World, steps: seq<Step>, s: Step)
    requires Sane(w) && TreeTells(w.tree, Makers(steps)) && SnapshotsTell(w, steps)
    requires s.Updating? ==> (Allowed(w, s.path, s.domain) <==> Admitted(steps, s.path, s.domain))
    ensures TreeTells(Apply(w, s).tree, Makers(steps + [s]))
  {
    hide TreeTells, Makers, Touch, Written, Allowed, Admitted, LastIndex;
    MakersAppend(steps, s);
    match s
    case Updating(_, _, _, _) => WriteTells(w.tree, Makers(steps), s);
    case Reading(path) => TouchTells(w.tree, Makers(steps), path);
    case Resolving(_, _, _) => WriteTells(w.tree, Makers(steps), s);
    case Restoring(id) => assert SnapshotTells(w.snapshots, steps, id);
    case _ =>
  }

  lemma ApplyKeepsSnapshots(w: World, steps: seq<Step>, s: Step)
    requires Sane(w) && TreeTells(w.tree, Makers(steps)) && SnapshotsTell(w, steps)
    ensures SnapshotsTell(Apply(w, s), steps + [s])
  {
    hide TreeTells, Makers, Apply, SnapshotTells;
    ApplyKeeps(w, s);
    forall id ensures SnapshotTells(Apply(w, s).snapshots, steps + [s], id) {
      SnapshotKept(w.snapshots, w.tree, steps, s, id);
    }
  }

  lemma SnapshotKept(snapshots: map<string, map<seq<string>, Content>>, t: map<seq<string>, Content>, steps: seq<Step>, s: Step, id: string)
    requires TreeTells(t, Makers(steps)) && SnapshotTells(snapshots, steps, id)
    ensures SnapshotTells(if s.Snapping? then snapshots[s.id := t] else snapshots, steps + [s], id)
  {
    hide TreeTells, Makers;
    var all, k := steps + [s], LastIndex(steps, Snaps(id));
    LastIndexAppends(steps, s, Snaps(id));
    hide LastIndex;
    assert all[..|steps|] == steps && k < |steps|;
    if k >= 0 {
      assert all[..k] == steps[..k];
    }
  }

  /** After any run there is a node at each path reached by the steps that made the tree, and at no
      other; its version, value and owner are those of the writes at its path among them. The same
      holds of every snapshot and the steps before it. */
  lemma {:induction false} TreeFollowsTheSteps(steps: seq<Step>)
    ensures Sane(START)
    ensures TreeTells(Run(START, steps).tree, Makers(steps)) && SnapshotsTell(Run(START, steps), steps)
  {
    StartReplays();
    if steps == [] {
      NothingMade();
    } else {
      hide Run, Apply, TreeTells, SnapshotsTell, Makers, Sane, Allowed, Admitted;
      var front, s := steps[..|steps| - 1], steps[|steps| - 1];
      assert steps == front + [s];
      TreeFollowsTheSteps(front);
      RunAppends(START, front, s);
      if s.Updating? {
        AllowedIsAdmitted(front, s.path, s.domain);
      }
      ApplyTells(Run(START, front), front, s);
      ApplyKeepsSnapshots(Run(START, front), front, s);
    }
  }

  lemma AllowedIsAdmitted(steps: seq<Step>, path: string, domain: string)
    ensures Sane(START) && (Allowed(Run(START, steps), path, domain) <==> Admitted(steps, path, domain))
  {
    AccessFollowsTheSteps(steps);
    hide Run, LastIndex;
    assert LastIndex(steps, Restricts(path)) < |steps|;
  }

  lemma NothingMade()
    ensures Sane(START)
    ensures TreeTells(Run(START, []).tree, Makers([])) && SnapshotsTell(Run(START, []), [])
  {
    StartReplays();
    hide Split;
  }
}
