/** What any calls leave in the scheduler, with each policy told by what it does to one task. */
module SchedulerHistory {
  import opened Prelude
  import opened Sorting
  import opened Scheduler

  ghost predicate KernelNamed(name: string) {
    exists before, after :: name == before + "kernel" + after
  }

  lemma KernelNamedIsKernel(t: Task)
    ensures IsKernel(t) <==> KernelNamed(t.name)
  {
    hide Contains;
    if IsKernel(t) {
      var i: nat :| OccursAt(t.name, "kernel", i);
      assert t.name == t.name[..i] + "kernel" + t.name[i + 6..];
    }
    if KernelNamed(t.name) {
      var before, after :| t.name == before + "kernel" + after;
      assert OccursAt(t.name, "kernel", |before|);
    }
  }

  /** What the policies make of a task: unless the kernel is known to be ready a boost raises it by
      one if its name has "kernel" in it, and a limit drops it if it is below the threshold, or
      below zero without one. */
  ghost function Through(t: Task, policies: seq<Entry<string, Policy>>, context: Context): Option<Task>
    decreases |policies|
  {
    if policies == [] then Some(t)
    else
      match policies[0].value
      case BoostKernel =>
        Through(if context.kernelReady != Some(true) && KernelNamed(t.name) then t.(priority := t.priority + 1) else t, policies[1..], context)
      case LimitLowPriority =>
        if t.priority < (if context.threshold.Some? then context.threshold.value else 0) then None
        else Through(t, policies[1..], context)
  }

  ghost function AllThrough(q: seq<Task>, policies: seq<Entry<string, Policy>>, context: Context): seq<Task> {
    if q == [] then [] else
      var rest, t := AllThrough(q[..|q| - 1], policies, context), Through(q[|q| - 1], policies, context);
      if t.Some? then rest + [t.value] else rest
  }

  lemma {:induction false} BoostedThrough(q: seq<Task>, policies: seq<Entry<string, Policy>>, context: Context)
    requires policies != [] && policies[0].value.BoostKernel?
    ensures AllThrough(q, policies, context) ==
            AllThrough(if context.kernelReady == Some(true) then q else Map(q, Raise()), policies[1..], context)
  {
    hide IsKernel;
    if q != [] {
      var n := |q| - 1;
      BoostedThrough(q[..n], policies, context);
      KernelNamedIsKernel(q[n]);
      hide KernelNamed;
      var r := Map(q, Raise());
      assert r[..n] == Map(q[..n], Raise()) && r[n] == Raise()(q[n]);
    }
  }

  lemma {:induction false} LimitedThrough(q: seq<Task>, policies: seq<Entry<string, Policy>>, context: Context)
    requires policies != [] && policies[0].value.LimitLowPriority?
    ensures AllThrough(q, policies, context) == AllThrough(Filter(q, AtLeast(Threshold(context))), policies[1..], context)
  {
    if q != [] {
      var n := |q| - 1;
      LimitedThrough(q[..n], policies, context);
      var kept := Filter(q[..n], AtLeast(Threshold(context)));
      assert (kept + [q[n]])[..|kept|] == kept;
    }
  }

  lemma {:induction false} NoPolicies(q: seq<Task>, context: Context)
    ensures AllThrough(q, [], context) == q
  {
    if q != [] {
      NoPolicies(q[..|q| - 1], context);
    }
  }

  /** The policies of a tick leave the tasks that get through, in order, as they get through. */
  lemma {:induction false} PoliciesLetThrough(s: State, policies: seq<Entry<string, Policy>>, context: Context)
    ensures AppliedAll(s, policies, context).queue == AllThrough(s.queue, policies, context)
    decreases |policies|
  {
    hide AllThrough, Map, Filter;
    if policies == [] {
      NoPolicies(s.queue, context);
    } else {
      PoliciesLetThrough(Applied(s, policies[0].value, context), policies[1..], context);
      match policies[0].value
      case BoostKernel => BoostedThrough(s.queue, policies, context);
      case LimitLowPriority => LimitedThrough(s.queue, policies, context);
    }
  }

  // ----- Runs -----

  ghost function Adds(): Call -> bool {
    (c: Call) => c.AddTask?
  }

  ghost function Names(title: string): Call -> bool {
    (c: Call) => c.AddPolicy? && c.title == title
  }

  /** The queue and the tasks run: an addition sorts the queue with the new task last by priority,
      highest first and stably; a tick runs the first task that gets through the policies. */
  ghost function QueueAndRan(calls: seq<Call>): (seq<Task>, seq<Task>) {
    if calls == [] then ([], []) else
      var front, call := calls[..|calls| - 1], calls[|calls| - 1];
      var (queue, ran) := QueueAndRan(front);
      match call
      case AddTask(name, priority, executor) =>
        (Sort(queue + [Task(Number(front, Adds()), name, priority, executor)], (t: Task) => -t.priority), ran)
      case AddPolicy(_, _) => (queue, ran)
      case RunOnce(context) =>
        var q := AllThrough(queue, Run(front).policies, context);
        if q == [] then (q, ran) else (q[1..], ran + [q[0]])
  }

  lemma AddIsSort(queue: seq<Task>, t: Task)
    ensures Enqueued(queue, t) == Sort(queue + [t], (t: Task) => -t.priority)
  {
    SameKeySameSort(queue + [t], ByPriority(), (t: Task) => -t.priority);
  }

  lemma {:induction false} SameKeySameInsert(q: seq<Task>, t: Task, key: Task -> int, same: Task -> int)
    requires forall u :: key(u) == same(u)
    ensures Insert(q, t, key) == Insert(q, t, same)
  {
    if q != [] {
      SameKeySameInsert(q[..|q| - 1], t, key, same);
    }
  }

  lemma {:induction false} SameKeySameSort(q: seq<Task>, key: Task -> int, same: Task -> int)
    requires forall u :: key(u) == same(u)
    ensures Sort(q, key) == Sort(q, same)
  {
    if q != [] {
      SameKeySameSort(q[..|q| - 1], key, same);
      SameKeySameInsert(Sort(q[..|q| - 1], key), q[|q| - 1], key, same);
    }
  }

  /** After any calls the queue and the tasks run are as told, the tasks numbered as they were added. */
  lemma {:induction false} RunFollowsTheCalls(calls: seq<Call>)
    ensures (Run(calls).queue, Run(calls).ran) == QueueAndRan(calls) && Run(calls).added == Number(calls, Adds())
  {
    hide Sort, AllThrough, AppliedAll, Enqueued;
    if calls != [] {
      var front, call := calls[..|calls| - 1], calls[|calls| - 1];
      RunFollowsTheCalls(front);
      var s := Run(front);
      match call
      case AddTask(name, priority, executor) => AddIsSort(s.queue, Task(s.added, name, priority, executor));
      case AddPolicy(_, _) =>
      case RunOnce(context) =>
        PoliciesLetThrough(s, s.policies, context);
        PoliciesKeepCounts(s, s.policies, context);
    }
  }

  lemma {:induction false} PoliciesKeepCounts(s: State, policies: seq<Entry<string, Policy>>, context: Context)
    ensures var t := AppliedAll(s, policies, context); t.ran == s.ran && t.added == s.added && t.policies == s.policies
    decreases |policies|
  {
    if policies != [] {
      PoliciesKeepCounts(Applied(s, policies[0].value, context), policies[1..], context);
    }
  }

  /** After any calls each policy registered stands under its title, once, as it was last registered. */
  lemma {:induction false} PoliciesFollowTheCalls(calls: seq<Call>, title: string)
    ensures var policies, i := Run(calls).policies, LastIndex(calls, Names(title));
      UniqueKeys(policies) &&
      if i >= 0 then Entry(title, calls[i].policy) in policies else forall e <- policies :: e.key != title
  {
    hide Position, Put, AppliedAll, Enqueued, LastIndex;
    if calls == [] {
      assert Run([]).policies == [];
    } else {
      var front, call := calls[..|calls| - 1], calls[|calls| - 1];
      assert calls == front + [call];
      PoliciesFollowTheCalls(front, title);
      LastIndexAppends(front, call, Names(title));
      var s := Run(front);
      match call
      case AddTask(_, _, _) =>
      case AddPolicy(other, policy) => PutMembers(s.policies, other, policy);
      case RunOnce(context) => PoliciesKeepCounts(s, s.policies, context);
    }
  }

  /** A tick reports the first task that gets through, with what its executor returns, or idle. */
  lemma TickReports(s: State, context: Context)
    ensures var q := AllThrough(s.queue, s.policies, context);
      ResultOf(AppliedAll(s, s.policies, context), context) ==
      if q == [] then Idle else Done(q[0].name, q[0].priority, q[0].executor(context))
  {
    hide AppliedAll;
    PoliciesLetThrough(s, s.policies, context);
  }
}
