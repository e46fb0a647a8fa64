/** The manager of the global state: each of its operations, on the heap, is the step of the
    same name on values. */
module StateManager {
  import opened Prelude
  import opened StateTree
  import opened StateRuns
  import opened WorldState

  // ----- Choosing the resolution of a conflict -----

  datatype Strategy = LastWriteWins | FirstWriteWins | HighestPriority | Custom

  /** An update as a conflict holds it, with its time. */
  datatype Contender = Contender(path: string, value: Value, domain: string, time: int, priority: int)

  /** The first of the greatest by a key: Python's `max` keeps the earlier of equals. */
  function FirstGreatest(us: seq<Contender>, key: Contender -> int): (i: nat)
    requires us != []
    ensures i < |us| && (forall j :: 0 <= j < |us| ==> key(us[j]) <= key(us[i])) && forall j :: 0 <= j < i ==> key(us[j]) < key(us[i])
  {
    if |us| == 1 then 0 else
      var i := FirstGreatest(us[..|us| - 1], key);
      if key(us[|us| - 1]) > key(us[i]) then |us| - 1 else i
  }

  function Chosen(us: seq<Contender>, strategy: Strategy, resolver: Option<seq<Contender> -> Contender>): Contender
    requires us != []
  {
    match strategy
    case LastWriteWins => us[FirstGreatest(us, (u: Contender) => u.time)]
    case FirstWriteWins => us[FirstGreatest(us, (u: Contender) => -u.time)]
    case HighestPriority => us[FirstGreatest(us, (u: Contender) => u.priority)]
    case Custom => if resolver.Some? then resolver.value(us) else us[0]
  }

  /** An update none of the others exceeds by a key, and the first such. */
  ghost predicate FirstBest(us: seq<Contender>, key: Contender -> int, u: Contender) {
    exists i :: 0 <= i < |us| && us[i] == u && (forall j :: 0 <= j < |us| ==> key(us[j]) <= key(u)) && forall j :: 0 <= j < i ==> key(us[j]) < key(u)
  }

  /** What each strategy asks of the update it resolves a conflict to. */
  ghost predicate Resolves(us: seq<Contender>, strategy: Strategy, resolver: Option<seq<Contender> -> Contender>, u: Contender) {
    (strategy.LastWriteWins? ==> u in us && (forall o <- us :: o.time <= u.time) && FirstBest(us, (o: Contender) => o.time, u)) &&
    (strategy.FirstWriteWins? ==> u in us && (forall o <- us :: u.time <= o.time) && FirstBest(us, (o: Contender) => -o.time, u)) &&
    (strategy.HighestPriority? ==> u in us && (forall o <- us :: o.priority <= u.priority) && FirstBest(us, (o: Contender) => o.priority, u)) &&
    (strategy.Custom? ==> us != [] && u == if resolver.Some? then resolver.value(us) else us[0])
  }

  /** The update chosen is one that the strategy asks for, and the first of equals. */
  lemma ChosenResolves(us: seq<Contender>, strategy: Strategy, resolver: Option<seq<Contender> -> Contender>)
    requires us != []
    ensures Resolves(us, strategy, resolver, Chosen(us, strategy, resolver))
  {
    hide FirstGreatest;
    var u := Chosen(us, strategy, resolver);
    match strategy
    case LastWriteWins => FirstGreatestIsBest(us, (o: Contender) => o.time);
    case FirstWriteWins => FirstGreatestIsBest(us, (o: Contender) => -o.time);
    case HighestPriority => FirstGreatestIsBest(us, (o: Contender) => o.priority);
    case Custom =>
  }

  lemma FirstGreatestIsBest(us: seq<Contender>, key: Contender -> int)
    requires us != []
    ensures var u := us[FirstGreatest(us, key)]; u in us && (forall o <- us :: key(o) <= key(u)) && FirstBest(us, key, u)
  {
  }

  /** Two updates, and the one chosen once the conflict is resolved. */
  datatype Conflict = Conflict(updates: seq<Contender>, resolution: Option<Contender>)

  // ----- The manager -----

  ghost predicate SnapshotsStand(snapshots: map<string, Snap>, taken: map<string, map<seq<string>, Content>>) {
    snapshots.Keys == taken.Keys &&
    forall id :: id in snapshots ==> WellNamed(snapshots[id]) && snapshots[id].name == "world" && Flatten(snapshots[id]) == taken[id]
  }

  ghost predicate Top(nodes: map<seq<string>, StateNode>, root: StateNode) {
    [] in nodes && nodes[[]] == root && root.parent == null && root.name == "world"
  }

  class WorldKernelState {
    var root: StateNode
    var updatesLog: seq<Update>
    var snapshots: map<string, Snap>
    var accessControl: map<string, set<string>>
    var conflicts: map<string, Conflict>
    var resolutionStrategy: Strategy
    var customResolver: Option<seq<Contender> -> Contender>
    ghost var nodes: map<seq<string>, StateNode>
    ghost var world: World

    /** The nodes stand for the tree of `world`, and the fields for the rest of it. */
    ghost predicate Valid()
      reads this, nodes.Values
    {
      Models(nodes, world.tree) && Top(nodes, root) && SnapshotsStand(snapshots, world.snapshots) && Sane(world) &&
      updatesLog == world.log && accessControl == world.access
    }

    constructor ()
      ensures Valid() && world == START && fresh(nodes.Values)
    {
      var data := Snap("world", BLANK, map[]);
      var top, made := Deserialize(data, null);
      root := top;
      updatesLog, snapshots, accessControl := [], map[], map[];
      nodes, world := made, START;
      conflicts, resolutionStrategy, customResolver := map[], LastWriteWins, None;
      FlattenExactly(data);
      TreesMatch(Flatten(data), START.tree);
      StartReplays();
      new;
    }

    /** Takes over a tree and a log that together stand for `next`. */
    method Adopt(newRoot: StateNode, log: seq<Update>, ghost newNodes: map<seq<string>, StateNode>, ghost next: World)
      requires Models(newNodes, next.tree) && Top(newNodes, newRoot) && SnapshotsStand(snapshots, next.snapshots) && Sane(next)
      requires log == next.log && accessControl == next.access
      modifies this`root, this`updatesLog, this`nodes, this`world
      ensures Valid() && world == next && nodes == newNodes
    {
      hide Models, Top, SnapshotsStand, Sane;
      root, updatesLog, nodes, world := newRoot, log, newNodes, next;
    }

    /** Takes over snapshots and access rights that, with the tree and the log, stand for `next`. */
    method Keep(newSnapshots: map<string, Snap>, newAccess: map<string, set<string>>, ghost next: World)
      requires Valid() && next.tree == world.tree && next.log == world.log && newAccess == next.access
      requires SnapshotsStand(newSnapshots, next.snapshots) && Sane(next)
      modifies this`snapshots, this`accessControl, this`world
      ensures Valid() && world == next
    {
      hide Models, Top, SnapshotsStand, Sane;
      snapshots, accessControl, world := newSnapshots, newAccess, next;
    }

    method UpdateState(path: string, value: Value, domainId: string, priority: int) returns (done: bool)
      requires Valid()
      modifies this`root, this`updatesLog, this`nodes, this`world, nodes.Values
      ensures Valid()
      ensures done == !(path in accessControl && domainId !in accessControl[path])
      ensures done == Allowed(old(world), path, domainId) && (!done ==> world == old(world))
      ensures world == Apply(old(world), Updating(path, value, domainId, priority))
      ensures fresh(nodes.Values - old(nodes.Values))
    {
      ghost var next := Apply(world, Updating(path, value, domainId, priority));
      ApplyKeepsSane(world, Updating(path, value, domainId, priority));
      UpdateUnfolds(world, path, value, domainId, priority);
      hide Models, Touch, Split, SnapshotsStand, Sane, Assign, Apply;
      if path in accessControl && domainId !in accessControl[path] {
        return false;
      }
      var oldValue, more := root.WritePath(path, value, domainId, nodes, world.tree);
      Adopt(root, updatesLog + [Update(path, oldValue, value, domainId, priority)], more, next);
      return true;
    }

    /** An empty path reads the whole state; any other is made first where it is missing. */
    method GetState(path: string) returns (view: Value)
      requires Valid()
      modifies this`root, this`updatesLog, this`nodes, this`world, nodes.Values
      ensures Valid() && world == Apply(old(world), Reading(path))
      ensures view == if path == "" then ViewAt(world.tree, []) else Observe(old(world.tree), Split(path))
      ensures fresh(nodes.Values - old(nodes.Values))
    {
      ghost var next := Apply(world, Reading(path));
      ApplyKeepsSane(world, Reading(path));
      hide Models, Touch, Split, SnapshotsStand, Sane, Observe, ViewAt;
      if path == "" {
        root.ValueIsView(nodes, world.tree, []);
        return root.GetValue(nodes, world.tree, []);
      }
      ghost var more;
      view, more := root.ReadPath(path, nodes, world.tree);
      Adopt(root, updatesLog, more, next);
    }

    method CreateSnapshot(id: string)
      requires Valid()
      modifies this`snapshots, this`accessControl, this`world
      ensures Valid() && world == Apply(old(world), Snapping(id))
    {
      hide Models, Sane, SnapshotsStand, Flatten, WellNamed, Serialize;
      SaneIsRooted(world);
      ghost var next := Apply(world, Snapping(id));
      ApplyKeepsSane(world, Snapping(id));
      root.SnapIsTree(nodes, world.tree, []);
      SnapshotRoundTrip(world.tree, "world");
      var data := root.SerializeNode(nodes, world.tree, []);
      SnapshotsGrow(snapshots, world.snapshots, id, data, world.tree);
      Keep(snapshots[id := data], accessControl, next);
    }

    method RestoreSnapshot(id: string) returns (found: bool)
      requires Valid()
      modifies this`root, this`updatesLog, this`nodes, this`world
      ensures Valid() && found == (id in snapshots) && world == Apply(old(world), Restoring(id))
      ensures fresh(nodes.Values - old(nodes.Values)) && (found ==> fresh(nodes.Values))
    {
      hide Models, Sane, SnapshotsStand, Flatten, WellNamed;
      SaneIsRooted(world);
      ghost var next := Apply(world, Restoring(id));
      ApplyKeepsSane(world, Restoring(id));
      SnapshotStands(snapshots, world.snapshots, id);
      if id !in snapshots {
        return false;
      }
      var newRoot, newNodes := Deserialize(snapshots[id], null);
      Adopt(newRoot, updatesLog, newNodes, next);
      return true;
    }

    /** Updates conflict exactly when they name one path at different times: the test of times,
        meant to let sequential updates pass, lets pass only simultaneous ones. */
    method DetectConflict(first: Contender, second: Contender, freshId: string) returns (id: Option<string>)
      modifies this`conflicts
      ensures id == if first.path == second.path && first.time != second.time then Some(freshId) else None
      ensures conflicts == if id.Some? then old(conflicts)[freshId := Conflict([first, second], None)] else old(conflicts)
    {
      if first.path != second.path {
        return None;
      }
      if first.time <= second.time <= first.time {
        return None;
      }
      conflicts := conflicts[freshId := Conflict([first, second], None)];
      return Some(freshId);
    }

    /** Writes an update without logging it. */
    method ApplyResolution(resolution: Contender)
      requires Valid()
      modifies this`root, this`updatesLog, this`nodes, this`world, nodes.Values
      ensures Valid() && world == Apply(old(world), Resolving(resolution.path, resolution.value, resolution.domain))
      ensures fresh(nodes.Values - old(nodes.Values))
    {
      ghost var next := Apply(world, Resolving(resolution.path, resolution.value, resolution.domain));
      ApplyKeepsSane(world, Resolving(resolution.path, resolution.value, resolution.domain));
      hide Models, Touch, Split, SnapshotsStand, Sane, Assign;
      var oldValue, more := root.WritePath(resolution.path, resolution.value, resolution.domain, nodes, world.tree);
      Adopt(root, updatesLog, more, next);
    }

    /** A conflict is resolved once: the update its strategy chooses is written, and later calls
        return it without writing. */
    method ResolveConflict(id: string) returns (resolution: Option<Contender>)
      requires Valid()
      requires id in conflicts ==> conflicts[id].updates != []
      modifies this`root, this`updatesLog, this`nodes, this`world, this`conflicts, nodes.Values
      ensures Valid()
      ensures id !in old(conflicts) ==> resolution.None? && conflicts == old(conflicts) && world == old(world)
      ensures id in old(conflicts) ==>
        var c := old(conflicts[id]);
        if c.resolution.Some? then resolution == c.resolution && conflicts == old(conflicts) && world == old(world)
        else
          var chosen := Chosen(c.updates, resolutionStrategy, customResolver);
          Resolves(c.updates, resolutionStrategy, customResolver, chosen) && resolution == Some(chosen) && conflicts == old(conflicts)[id := c.(resolution := resolution)] &&
          world == Apply(old(world), Resolving(chosen.path, chosen.value, chosen.domain))
      ensures fresh(nodes.Values - old(nodes.Values))
    {
      hide Models, Touch, Split, SnapshotsStand, Sane, Apply, Chosen;
      if id !in conflicts {
        return None;
      }
      var conflict := conflicts[id];
      if conflict.resolution.Some? {
        return conflict.resolution;
      }
      ChosenResolves(conflict.updates, resolutionStrategy, customResolver);
      hide Resolves;
      var chosen := Chosen(conflict.updates, resolutionStrategy, customResolver);
      resolution := Some(chosen);
      conflicts := conflicts[id := conflict.(resolution := resolution)];
      ApplyResolution(chosen);
    }

    method SetAccessControl(path: string, allowedDomains: set<string>)
      requires Valid()
      modifies this`snapshots, this`accessControl, this`world
      ensures Valid() && world == Apply(old(world), Restricting(path, allowedDomains))
    {
      hide Models, Sane, SnapshotsStand;
      SaneIsRooted(world);
      ApplyKeepsSane(world, Restricting(path, allowedDomains));
      Keep(snapshots, accessControl[path := allowedDomains], Apply(world, Restricting(path, allowedDomains)));
    }
  }

  // ----- Whole runs on the object -----

  /** One call by a client. */
  method Perform(kernel: WorldKernelState, s: Step)
    requires kernel.Valid()
    modifies kernel, kernel.nodes.Values
    ensures kernel.Valid() && Sane(old(kernel.world)) && kernel.world == Apply(old(kernel.world), s)
    ensures fresh(kernel.nodes.Values - old(kernel.nodes.Values))
  {
    assert Sane(kernel.world);
    hide Apply, Sane, WorldKernelState.Valid;
    match s
    case Updating(path, value, domain, priority) => var _ := kernel.UpdateState(path, value, domain, priority);
    case Reading(path) => var _ := kernel.GetState(path);
    case Resolving(path, value, domain) => kernel.ApplyResolution(Contender(path, value, domain, 0, 0));
    case Snapping(id) => kernel.CreateSnapshot(id);
    case Restoring(id) => var _ := kernel.RestoreSnapshot(id);
    case Restricting(path, domains) => kernel.SetAccessControl(path, domains);
  }

  /** Whatever calls a client makes on the object, and in whatever order, they come to the run of
      those steps on values, of which the state's theorems speak. */
  method PerformAll(kernel: WorldKernelState, steps: seq<Step>)
    requires kernel.Valid()
    modifies kernel, kernel.nodes.Values
    ensures kernel.Valid() && Sane(old(kernel.world)) && kernel.world == Run(old(kernel.world), steps)
    ensures fresh(kernel.nodes.Values - old(kernel.nodes.Values))
    decreases |steps|
  {
    assert Sane(kernel.world);
    hide Apply, Sane, WorldKernelState.Valid;
    if steps != [] {
      Perform(kernel, steps[0]);
      PerformAll(kernel, steps[1..]);
    }
  }

  lemma SaneIsRooted(w: World)
    requires Sane(w)
    ensures Rooted(w.tree)
  {
  }

  lemma SnapshotStands(snapshots: map<string, Snap>, taken: map<string, map<seq<string>, Content>>, id: string)
    requires SnapshotsStand(snapshots, taken)
    ensures id in snapshots <==> id in taken
    ensures id in snapshots ==> WellNamed(snapshots[id]) && snapshots[id].name == "world" && Flatten(snapshots[id]) == taken[id]
  {
  }

  lemma SnapshotsGrow(snapshots: map<string, Snap>, taken: map<string, map<seq<string>, Content>>, id: string, data: Snap, t: map<seq<string>, Content>)
    requires SnapshotsStand(snapshots, taken) && WellNamed(data) && data.name == "world" && Flatten(data) == t
    ensures SnapshotsStand(snapshots[id := data], taken[id := t])
  {
  }

  lemma UpdateUnfolds(w: World, path: string, value: Value, domainId: string, priority: int)
    requires Sane(w)
    ensures var p := Split(path); var next := Apply(w, Updating(path, value, domainId, priority));
      p in Touch(w.tree, p) && next.snapshots == w.snapshots && next.access == w.access &&
      if Allowed(w, path, domainId) then
        next.tree == Assign(Touch(w.tree, p), p, value, domainId) &&
        next.log == w.log + [Update(path, Touch(w.tree, p)[p].value, value, domainId, priority)]
      else next == w
  {
    TouchExactly(w.tree, Split(path));
  }
}
