/** The kernel scheduler: a queue sorted by priority on every addition, and policies that raise
    and drop queued tasks before each pop. */
module Scheduler {
  import opened Prelude
  import opened Sorting

  datatype Context = Context(kernelReady: Option<bool>, threshold: Option<int>)

  /** What a task runs: it sees the context and changes nothing the scheduler knows of. */
  type Executor = Context -> string

  /** A task, numbered in the order of addition. */
  datatype Task = Task(id: nat, name: string, priority: int, executor: Executor)

  /** Highest priority first. */
  function ByPriority(): Task -> int {
    (t: Task) => -t.priority
  }

  predicate OccursAt(s: string, part: string, i: nat) {
    i + |part| <= |s| && s[i..i + |part|] == part
  }

  function Contains(s: string, part: string): (found: bool)
    ensures found <==> exists i: nat :: OccursAt(s, part, i)
  {
    if |s| < |part| then false
    else if OccursAt(s, part, |s| - |part|) then true
    else if |s| == |part| then assert forall i: nat :: OccursAt(s, part, i) ==> i == |s| - |part|; false
    else
      var shorter := s[..|s| - 1];
      assert forall i: nat :: OccursAt(s, part, i) ==> i == |s| - |part| || OccursAt(shorter, part, i);
      assert forall i: nat :: OccursAt(shorter, part, i) ==> OccursAt(s, part, i);
      Contains(shorter, part)
  }

  predicate IsKernel(t: Task) {
    Contains(t.name, "kernel")
  }

  /** Kernel-named tasks, or the others. */
  function Group(kernel: bool): Task -> bool {
    (t: Task) => IsKernel(t) == kernel
  }

  function Raise(): Task -> Task {
    (t: Task) => if IsKernel(t) then t.(priority := t.priority + 1) else t
  }

  function AtLeast(threshold: int): Task -> bool {
    (t: Task) => t.priority >= threshold
  }

  datatype Policy = BoostKernel | LimitLowPriority

  predicate Ready(context: Context) {
    context.kernelReady == Some(true)
  }

  function Threshold(context: Context): int {
    match context.threshold
    case Some(n) => n
    case None => 0
  }

  // ----- Steps -----

  /** The queue and policies, with the number of tasks added, those run and those dropped, and the
      boosts since the last addition. */
  datatype State = State(
    queue: seq<Task>,
    policies: seq<Entry<string, Policy>>,
    added: nat,
    ran: seq<Task>,
    dropped: seq<Task>,
    boosts: nat)

  const IDLE := State([], [], 0, [], [], 0)

  function Enqueued(queue: seq<Task>, t: Task): seq<Task> {
    Sort(queue + [t], ByPriority())
  }

  function Added(s: State, name: string, priority: int, executor: Executor): State {
    s.(queue := Enqueued(s.queue, Task(s.added, name, priority, executor)), added := s.added + 1, boosts := 0)
  }

  function Boosted(s: State, context: Context): State {
    if Ready(context) then s else s.(queue := Map(s.queue, Raise()), boosts := s.boosts + 1)
  }

  function Limited(s: State, context: Context): State {
    var keep := AtLeast(Threshold(context));
    s.(queue := Filter(s.queue, keep), dropped := s.dropped + Filter(s.queue, Not(keep)))
  }

  function Applied(s: State, policy: Policy, context: Context): State {
    match policy
    case BoostKernel => Boosted(s, context)
    case LimitLowPriority => Limited(s, context)
  }

  function AppliedAll(s: State, policies: seq<Entry<string, Policy>>, context: Context): State
    decreases |policies|
  {
    if policies == [] then s else AppliedAll(Applied(s, policies[0].value, context), policies[1..], context)
  }

  function Popped(s: State): State {
    if s.queue == [] then s else s.(queue := s.queue[1..], ran := s.ran + [s.queue[0]])
  }

  function Ticked(s: State, context: Context): State {
    Popped(AppliedAll(s, s.policies, context))
  }

  datatype Call =
    | AddTask(name: string, priority: int, executor: Executor)
    | AddPolicy(title: string, policy: Policy)
    | RunOnce(context: Context)

  function Apply(s: State, call: Call): State {
    match call
    case AddTask(name, priority, executor) => Added(s, name, priority, executor)
    case AddPolicy(title, policy) => s.(policies := Put(s.policies, title, policy))
    case RunOnce(context) => Ticked(s, context)
  }

  function Run(calls: seq<Call>): State {
    if calls == [] then IDLE else Apply(Run(calls[..|calls| - 1]), calls[|calls| - 1])
  }

  // ----- Order within a group -----

  ghost predicate Precedes(a: Task, b: Task) {
    a.priority > b.priority || (a.priority == b.priority && a.id < b.id)
  }

  ghost predicate Ordered(q: seq<Task>) {
    forall i, j :: 0 <= i < j < |q| ==> Precedes(q[i], q[j])
  }

  /** Each group is sorted by priority and first-come first-served among equals. */
  ghost predicate Fair(s: State) {
    Ordered(Filter(s.queue, Group(true))) && Ordered(Filter(s.queue, Group(false))) &&
    (forall t <- s.queue :: t.id < s.added)
  }

  lemma OrderedAppend(q: seq<Task>, t: Task)
    requires Ordered(q) && forall u <- q :: Precedes(u, t)
    ensures Ordered(q + [t])
  {
  }

  lemma OrderedUpToLast(q: seq<Task>)
    requires q != [] && Ordered(q)
    ensures Ordered(q[..|q| - 1]) && var last := q[|q| - 1]; forall u <- q[..|q| - 1] :: Precedes(u, last)
  {
  }

  lemma {:induction false} OrderedFilter(q: seq<Task>, p: Task -> bool)
    requires Ordered(q)
    ensures Ordered(Filter(q, p))
  {
    hide Ordered, Precedes;
    if q == [] {
      assert Filter(q, p) == q;
    } else {
      var n := |q| - 1;
      OrderedUpToLast(q);
      OrderedFilter(q[..n], p);
      FilterHolds(q[..n], p);
      if p(q[n]) {
        OrderedAppend(Filter(q[..n], p), q[n]);
      }
    }
  }

  lemma OrderedIsSorted(q: seq<Task>)
    requires Ordered(q)
    ensures SortedBy(q, ByPriority())
  {
    assert forall i, j :: 0 <= i < j < |q| ==> Precedes(q[i], q[j]);
  }

  /** The newest task goes where its priority takes it, behind its equals. */
  lemma {:induction false} OrderedInsert(q: seq<Task>, t: Task)
    requires Ordered(q) && forall u <- q :: u.id < t.id
    ensures Ordered(Insert(q, t, ByPriority()))
  {
    hide Ordered;
    if q == [] {
      OrderedAppend(q, t);
    } else {
      var n := |q| - 1;
      OrderedUpToLast(q);
      if q[n].priority >= t.priority {
        forall u | u in q ensures Precedes(u, t) {
          assert u.id < t.id;
          if u != q[n] {
            assert u in q[..n];
            assert Precedes(u, q[n]);
          }
        }
        OrderedAppend(q, t);
      } else {
        OrderedInsert(q[..n], t);
        InsertIsOf(q[..n], t, ByPriority());
        var r := Insert(q[..n], t, ByPriority());
        forall u | u in r ensures Precedes(u, q[n]) {
          assert u in multiset(r);
          assert u in q[..n] || u == t;
        }
        OrderedAppend(r, q[n]);
      }
    }
  }

  lemma GroupAfterEnqueue(q: seq<Task>, t: Task, kernel: bool)
    requires Ordered(Filter(q, Group(kernel))) && forall u <- q :: u.id < t.id
    ensures Ordered(Filter(Enqueued(q, t), Group(kernel)))
  {
    hide Ordered, Sort, Insert;
    var f := Filter(q, Group(kernel));
    SortFiltered(q + [t], Group(kernel), ByPriority());
    FilterAppend(q, t, Group(kernel));
    OrderedIsSorted(f);
    SortOfSorted(f, ByPriority());
    SortAppend(f, t, ByPriority());
    FilterHolds(q, Group(kernel));
    OrderedInsert(f, t);
  }

  lemma AddKeepsFair(s: State, name: string, priority: int, executor: Executor)
    requires Fair(s)
    ensures Fair(Added(s, name, priority, executor))
  {
    hide Ordered, Sort;
    var t := Task(s.added, name, priority, executor);
    GroupAfterEnqueue(s.queue, t, true);
    GroupAfterEnqueue(s.queue, t, false);
    SortMembers(s.queue + [t], ByPriority());
  }

  lemma OrderedRaised(q: seq<Task>, kernel: bool)
    requires Ordered(q) && forall t <- q :: IsKernel(t) == kernel
    ensures Ordered(Map(q, Raise()))
  {
    hide Map, IsKernel;
    var r := Map(q, Raise());
    forall i, j | 0 <= i < j < |r| ensures Precedes(r[i], r[j]) {
      assert Precedes(q[i], q[j]);
      assert IsKernel(q[i]) == kernel && IsKernel(q[j]) == kernel;
    }
  }

  lemma GroupAfterBoost(q: seq<Task>, kernel: bool)
    requires Ordered(Filter(q, Group(kernel)))
    ensures Ordered(Filter(Map(q, Raise()), Group(kernel)))
  {
    hide Ordered, Map, Filter, Contains;
    FilterOfMap(q, Raise(), Group(kernel), Group(kernel));
    FilterHolds(q, Group(kernel));
    OrderedRaised(Filter(q, Group(kernel)), kernel);
  }

  lemma BoostKeepsFair(s: State, context: Context)
    requires Fair(s)
    ensures Fair(Boosted(s, context))
  {
    hide Ordered, Map, Filter;
    if !Ready(context) {
      GroupAfterBoost(s.queue, true);
      GroupAfterBoost(s.queue, false);
      var q := Map(s.queue, Raise());
      forall t | t in q ensures t.id < s.added {
        var i :| 0 <= i < |q| && q[i] == t;
        assert s.queue[i] in s.queue;
      }
    }
  }

  lemma LimitKeepsFair(s: State, context: Context)
    requires Fair(s)
    ensures Fair(Limited(s, context))
  {
    hide Ordered, Filter;
    var keep := AtLeast(Threshold(context));
    FiltersCommute(s.queue, keep, Group(true));
    FiltersCommute(s.queue, keep, Group(false));
    OrderedFilter(Filter(s.queue, Group(true)), keep);
    OrderedFilter(Filter(s.queue, Group(false)), keep);
    FilterHolds(s.queue, keep);
  }

  lemma OrderedTail(t: Task, q: seq<Task>)
    requires Ordered([t] + q)
    ensures Ordered(q) && forall u <- q :: Precedes(t, u)
  {
    assert forall i :: 0 <= i < |q| ==> q[i] == ([t] + q)[i + 1];
    forall u | u in q ensures Precedes(t, u) {
      var i :| 0 <= i < |q| && q[i] == u;
      assert Precedes(([t] + q)[0], ([t] + q)[i + 1]);
    }
  }

  /** A popped task comes before every task of its group left behind. */
  lemma PopTakesTheFirstOfItsGroup(s: State)
    requires Fair(s) && s.queue != []
    ensures Fair(Popped(s))
    ensures forall u <- Popped(s).queue :: IsKernel(u) == IsKernel(s.queue[0]) ==> Precedes(s.queue[0], u)
  {
    hide Ordered, Precedes, IsKernel;
    var t, rest := s.queue[0], s.queue[1..];
    assert s.queue == [t] + rest;
    FilterPrepend(t, rest, Group(true));
    FilterPrepend(t, rest, Group(false));
    var mine := Filter(rest, Group(IsKernel(t)));
    OrderedTail(t, mine);
    forall u | u in rest && IsKernel(u) == IsKernel(t) ensures Precedes(t, u) {
      FilterFinds(rest, Group(IsKernel(t)), u);
    }
  }

  lemma {:induction false} FilterFinds(q: seq<Task>, p: Task -> bool, t: Task)
    requires t in q && p(t)
    ensures t in Filter(q, p)
  {
    if q[|q| - 1] != t {
      FilterFinds(q[..|q| - 1], p, t);
    }
  }

  lemma {:induction false} PoliciesKeepFair(s: State, policies: seq<Entry<string, Policy>>, context: Context)
    requires Fair(s)
    ensures Fair(AppliedAll(s, policies, context))
    decreases |policies|
  {
    hide Fair;
    if policies != [] {
      BoostKeepsFair(s, context);
      LimitKeepsFair(s, context);
      PoliciesKeepFair(Applied(s, policies[0].value, context), policies[1..], context);
    }
  }

  /** Through any mix of additions, boosts, limits and pops each group stays in its order. */
  lemma {:induction false} RunIsFair(calls: seq<Call>)
    ensures Fair(Run(calls))
  {
    hide Fair;
    if calls == [] {
      assert Fair(IDLE) by { IdleIsFair(); }
    } else {
      var s, call := Run(calls[..|calls| - 1]), calls[|calls| - 1];
      RunIsFair(calls[..|calls| - 1]);
      match call
      case AddTask(name, priority, executor) => AddKeepsFair(s, name, priority, executor);
      case AddPolicy(title, policy) => FairLooksAtQueue(s, Apply(s, call));
      case RunOnce(context) =>
        PoliciesKeepFair(s, s.policies, context);
        var t := AppliedAll(s, s.policies, context);
        if t.queue != [] {
          PopTakesTheFirstOfItsGroup(t);
        }
    }
  }

  lemma IdleIsFair()
    ensures Fair(IDLE)
  {
  }

  lemma FairLooksAtQueue(s: State, t: State)
    requires Fair(s) && s.queue == t.queue && s.added == t.added
    ensures Fair(t)
  {
  }

  // ----- How far from sorted -----

  /** No task is more than `slack` below one behind it. */
  ghost predicate Within(q: seq<Task>, slack: nat) {
    forall i, j :: 0 <= i < j < |q| ==> q[i].priority + slack >= q[j].priority
  }

  lemma AddSorts(s: State, name: string, priority: int, executor: Executor)
    ensures Within(Added(s, name, priority, executor).queue, 0)
  {
    hide Sort;
    SortIsSorted(s.queue + [Task(s.added, name, priority, executor)], ByPriority());
    var q := Added(s, name, priority, executor).queue;
    assert forall i, j :: 0 <= i < j < |q| ==> ByPriority()(q[i]) <= ByPriority()(q[j]);
  }

  lemma BoostLoosens(s: State, context: Context)
    requires Within(s.queue, s.boosts)
    ensures Within(Boosted(s, context).queue, Boosted(s, context).boosts)
  {
    hide Map;
  }

  lemma WithinAppend(q: seq<Task>, t: Task, slack: nat)
    requires Within(q, slack) && forall u <- q :: u.priority + slack >= t.priority
    ensures Within(q + [t], slack)
  {
  }

  lemma WithinUpToLast(q: seq<Task>, slack: nat)
    requires q != [] && Within(q, slack)
    ensures Within(q[..|q| - 1], slack) && (forall u <- q[..|q| - 1] :: u.priority + slack >= q[|q| - 1].priority)
  {
  }

  lemma {:induction false} WithinFilter(q: seq<Task>, slack: nat, p: Task -> bool)
    requires Within(q, slack)
    ensures Within(Filter(q, p), slack)
  {
    hide Within;
    if q == [] {
      assert Filter(q, p) == q;
    } else {
      var n := |q| - 1;
      WithinUpToLast(q, slack);
      WithinFilter(q[..n], slack, p);
      FilterHolds(q[..n], p);
      if p(q[n]) {
        WithinAppend(Filter(q[..n], p), q[n], slack);
      }
    }
  }

  lemma {:induction false} PoliciesKeepWithin(s: State, policies: seq<Entry<string, Policy>>, context: Context)
    requires Within(s.queue, s.boosts)
    ensures var t := AppliedAll(s, policies, context); Within(t.queue, t.boosts)
    decreases |policies|
  {
    hide Within;
    if policies != [] {
      BoostLoosens(s, context);
      WithinFilter(s.queue, s.boosts, AtLeast(Threshold(context)));
      PoliciesKeepWithin(Applied(s, policies[0].value, context), policies[1..], context);
    }
  }

  /** After any calls a queued task is below a later one by at most the boosts since the last
      addition. */
  lemma {:induction false} DisorderIsAtMostBoosts(calls: seq<Call>)
    ensures Within(Run(calls).queue, Run(calls).boosts)
  {
    if calls != [] {
      var s, call := Run(calls[..|calls| - 1]), calls[|calls| - 1];
      DisorderIsAtMostBoosts(calls[..|calls| - 1]);
      match call
      case AddTask(name, priority, executor) => AddSorts(s, name, priority, executor);
      case AddPolicy(title, policy) =>
      case RunOnce(context) => PoliciesKeepWithin(s, s.policies, context);
    }
  }

  // ----- Exactly when order breaks -----

  /** Only a task that is not the kernel's may stand before one of higher priority. */
  ghost predicate KernelsBehind(q: seq<Task>) {
    forall i, j :: 0 <= i < j < |q| && (IsKernel(q[i]) || !IsKernel(q[j])) ==> q[i].priority >= q[j].priority
  }

  /** A boost of a queue in order leaves it in order exactly when no other task stands before a
      kernel task of equal priority. */
  lemma BoostKeepsSortedExactlyWhen(s: State, context: Context)
    requires Within(s.queue, 0) && !Ready(context)
    ensures Within(Boosted(s, context).queue, 0) <==>
      forall i, j :: 0 <= i < j < |s.queue| && !IsKernel(s.queue[i]) && IsKernel(s.queue[j]) ==>
        s.queue[i].priority != s.queue[j].priority
  {
    hide Map, Contains;
    var q, r := s.queue, Boosted(s, context).queue;
    assert forall i :: 0 <= i < |q| ==> r[i] == Raise()(q[i]);
  }

  /** How many of the policies boost in this context. */
  function Lifts(policies: seq<Entry<string, Policy>>, context: Context): nat {
    if policies == [] then 0
    else Lifts(policies[1..], context) + if policies[0].value.BoostKernel? && !Ready(context) then 1 else 0
  }

  function Lifted(t: Task, n: nat): Task {
    if IsKernel(t) then t.(priority := t.priority + n) else t
  }

  /** Whether a task passes every limit, at the priority the boosts before it have given it. */
  predicate Survives(t: Task, policies: seq<Entry<string, Policy>>, context: Context)
    decreases |policies|
  {
    policies == [] ||
    match policies[0].value
    case BoostKernel => Survives(if Ready(context) then t else Lifted(t, 1), policies[1..], context)
    case LimitLowPriority => t.priority >= Threshold(context) && Survives(t, policies[1..], context)
  }

  function Surviving(policies: seq<Entry<string, Policy>>, context: Context): Task -> bool {
    (t: Task) => Survives(t, policies, context)
  }

  function Lifting(n: nat): Task -> Task {
    (t: Task) => Lifted(t, n)
  }

  /** The tasks of the queue that no limit will drop. */
  function Survivors(s: State, context: Context): seq<Task> {
    Filter(s.queue, Surviving(s.policies, context))
  }

  lemma LiftedTwice(t: Task, n: nat, m: nat)
    ensures Lifted(Lifted(t, n), m) == Lifted(t, n + m) && IsKernel(Lifted(t, n)) == IsKernel(t)
  {
  }

  /** The policies together drop those that do not survive and raise the kernel's by the boosts. */
  lemma {:induction false} PoliciesInClosedForm(s: State, policies: seq<Entry<string, Policy>>, context: Context)
    ensures AppliedAll(s, policies, context).queue ==
            Map(Filter(s.queue, Surviving(policies, context)), Lifting(Lifts(policies, context)))
    decreases |policies|
  {
    hide Map, Filter, IsKernel;
    var all, n := Surviving(policies, context), Lifts(policies, context);
    if policies == [] {
      FilterAll(s.queue, all);
    } else {
      var rest := policies[1..];
      var more, m := Surviving(rest, context), Lifts(rest, context);
      PoliciesInClosedForm(Applied(s, policies[0].value, context), rest, context);
      match policies[0].value
      case BoostKernel =>
        if !Ready(context) {
          forall t ensures Raise()(t) == Lifted(t, 1) && Lifting(n)(t) == Lifting(m)(Raise()(t)) {
            LiftedTwice(t, 1, m);
          }
          FilterOfMap(s.queue, Raise(), more, all);
          MapOfMap(Filter(s.queue, all), Raise(), Lifting(m), Lifting(n));
        } else {
          FilterAgrees(s.queue, more, all);
        }
      case LimitLowPriority =>
        FilterOfFilter(s.queue, AtLeast(Threshold(context)), more, all);
    }
  }

  lemma FilterAgrees(q: seq<Task>, p: Task -> bool, r: Task -> bool)
    requires forall t: Task :: p(t) == r(t)
    ensures Filter(q, p) == Filter(q, r)
  {
    var yes := (t: Task) => true;
    FilterAll(q, yes);
    FilterOfFilter(q, yes, p, r);
  }

  lemma AddPutsKernelsBehind(s: State, name: string, priority: int, executor: Executor)
    ensures KernelsBehind(Added(s, name, priority, executor).queue)
  {
    AddSorts(s, name, priority, executor);
  }

  lemma KernelsBehindLifted(q: seq<Task>, n: nat)
    requires KernelsBehind(q)
    ensures KernelsBehind(Map(q, Lifting(n)))
  {
    hide Map, Contains;
    var r := Map(q, Lifting(n));
    assert forall i :: 0 <= i < |q| ==> r[i] == Lifted(q[i], n) && IsKernel(r[i]) == IsKernel(q[i]);
  }

  lemma KernelsBehindUpToLast(q: seq<Task>)
    requires q != [] && KernelsBehind(q)
    ensures KernelsBehind(q[..|q| - 1])
    ensures var last := q[|q| - 1];
      forall t <- q[..|q| - 1] :: IsKernel(t) || !IsKernel(last) ==> t.priority >= last.priority
  {
  }

  lemma KernelsBehindAppend(q: seq<Task>, t: Task)
    requires KernelsBehind(q) && forall u <- q :: IsKernel(u) || !IsKernel(t) ==> u.priority >= t.priority
    ensures KernelsBehind(q + [t])
  {
  }

  lemma {:induction false} KernelsBehindFilter(q: seq<Task>, p: Task -> bool)
    requires KernelsBehind(q)
    ensures KernelsBehind(Filter(q, p))
  {
    hide KernelsBehind, IsKernel;
    if q == [] {
      assert Filter(q, p) == q;
    } else {
      var n := |q| - 1;
      KernelsBehindUpToLast(q);
      KernelsBehindFilter(q[..n], p);
      FilterHolds(q[..n], p);
      if p(q[n]) {
        KernelsBehindAppend(Filter(q[..n], p), q[n]);
      }
    }
  }

  lemma PoliciesKeepKernelsBehind(s: State, context: Context)
    requires KernelsBehind(s.queue)
    ensures KernelsBehind(AppliedAll(s, s.policies, context).queue)
  {
    hide KernelsBehind;
    PoliciesInClosedForm(s, s.policies, context);
    KernelsBehindFilter(s.queue, Surviving(s.policies, context));
    KernelsBehindLifted(Survivors(s, context), Lifts(s.policies, context));
  }

  lemma PopKeepsKernelsBehind(s: State)
    requires KernelsBehind(s.queue)
    ensures KernelsBehind(Popped(s).queue)
  {
  }

  lemma {:induction false} RunKeepsKernelsBehind(calls: seq<Call>)
    ensures KernelsBehind(Run(calls).queue)
  {
    hide KernelsBehind;
    if calls == [] {
      KernelsBehindEmpty();
    } else {
      var s, call := Run(calls[..|calls| - 1]), calls[|calls| - 1];
      RunKeepsKernelsBehind(calls[..|calls| - 1]);
      match call
      case AddTask(name, priority, executor) => AddPutsKernelsBehind(s, name, priority, executor);
      case AddPolicy(title, policy) =>
      case RunOnce(context) =>
        PoliciesKeepKernelsBehind(s, context);
        PopKeepsKernelsBehind(AppliedAll(s, s.policies, context));
    }
  }

  lemma KernelsBehindEmpty()
    ensures KernelsBehind([])
  {
  }

  /** No task overtakes another when the kernel's are raised by `n`. */
  ghost predicate NoneOvertaken(q: seq<Task>, n: nat) {
    forall i, j :: 0 <= i < j < |q| && !IsKernel(q[i]) && IsKernel(q[j]) ==> q[i].priority >= q[j].priority + n
  }

  lemma LiftedIsSortedExactlyWhen(q: seq<Task>, n: nat)
    requires KernelsBehind(q)
    ensures Within(Map(q, Lifting(n)), 0) <==> NoneOvertaken(q, n)
  {
    hide Map, Contains;
    var r := Map(q, Lifting(n));
    assert forall i :: 0 <= i < |q| ==> r[i] == Lifted(q[i], n);
  }

  /** After any calls, the queue a tick pops from is in order exactly when no surviving other task
      stands before a surviving kernel task that is less than the boosts below it. */
  lemma TickSeesOrderExactlyWhen(calls: seq<Call>, context: Context)
    ensures var s := Run(calls);
      Within(AppliedAll(s, s.policies, context).queue, 0) <==>
      NoneOvertaken(Survivors(s, context), Lifts(s.policies, context))
  {
    hide KernelsBehind, Within, NoneOvertaken;
    var s := Run(calls);
    RunKeepsKernelsBehind(calls);
    KernelsBehindFilter(s.queue, Surviving(s.policies, context));
    PoliciesInClosedForm(s, s.policies, context);
    LiftedIsSortedExactlyWhen(Survivors(s, context), Lifts(s.policies, context));
  }

  ghost predicate FirstIsHighest(q: seq<Task>) {
    forall i :: 0 <= i < |q| ==> q[i].priority <= q[0].priority
  }

  lemma LiftedFirstIsHighestExactlyWhen(q: seq<Task>, n: nat)
    requires KernelsBehind(q) && q != []
    ensures FirstIsHighest(Map(q, Lifting(n))) <==>
            IsKernel(q[0]) || forall i :: 0 <= i < |q| && IsKernel(q[i]) ==> q[0].priority >= q[i].priority + n
  {
    hide Map, Contains;
    var r := Map(q, Lifting(n));
    assert forall i :: 0 <= i < |q| ==> r[i] == Lifted(q[i], n);
  }

  /** And the task it pops is a highest one exactly when it is the kernel's or every surviving
      kernel task is below it by at least the boosts. */
  lemma NextIsHighestExactlyWhen(calls: seq<Call>, context: Context)
    requires Survivors(Run(calls), context) != []
    ensures var s := Run(calls);
      var q, n := Survivors(s, context), Lifts(s.policies, context);
      FirstIsHighest(AppliedAll(s, s.policies, context).queue) <==>
      IsKernel(q[0]) || forall i :: 0 <= i < |q| && IsKernel(q[i]) ==> q[0].priority >= q[i].priority + n
  {
    hide KernelsBehind, FirstIsHighest;
    var s := Run(calls);
    RunKeepsKernelsBehind(calls);
    KernelsBehindFilter(s.queue, Surviving(s.policies, context));
    PoliciesInClosedForm(s, s.policies, context);
    LiftedFirstIsHighestExactlyWhen(Survivors(s, context), Lifts(s.policies, context));
  }

  /** A task about to run is below any other queued by at most those boosts, and not below any of
      its group. */
  lemma NextIsNearlyHighest(calls: seq<Call>, context: Context, u: Task)
    requires var t := AppliedAll(Run(calls), Run(calls).policies, context); u in t.queue
    ensures var t := AppliedAll(Run(calls), Run(calls).policies, context);
      u.priority <= t.queue[0].priority + t.boosts &&
      (IsKernel(u) == IsKernel(t.queue[0]) ==> u == t.queue[0] || Precedes(t.queue[0], u))
  {
    var s := Run(calls);
    var t := AppliedAll(s, s.policies, context);
    RunIsFair(calls);
    PoliciesKeepFair(s, s.policies, context);
    PopTakesTheFirstOfItsGroup(t);
    DisorderIsAtMostBoosts(calls);
    PoliciesKeepWithin(s, s.policies, context);
    var i :| 0 <= i < |t.queue| && t.queue[i] == u;
    assert i > 0 ==> u == t.queue[1..][i - 1];
  }

  const OTHER := "other"
  const KERNEL := "kernel"

  function Nothing(): Executor {
    (context: Context) => ""
  }

  ghost function Others(from: nat, to: nat): seq<Task>
    requires from <= to
  {
    seq(to - from, i requires 0 <= i < to - from => Task(from + i, OTHER, 0, Nothing()))
  }

  ghost function Additions(n: nat): seq<Call> {
    seq(n, i requires 0 <= i < n => AddTask(OTHER, 0, Nothing()))
  }

  const UNREADY := Context(None, None)

  /** n + 1 other tasks, one kernel task, the boosting policy, and n ticks. */
  ghost function Overtaking(n: nat, ticks: nat): seq<Call> {
    Additions(n + 1) + [AddTask(KERNEL, 0, Nothing())] + [AddPolicy("boost", BoostKernel)] + seq(ticks, i requires 0 <= i < ticks => RunOnce(UNREADY))
  }

  lemma RunAppend(calls: seq<Call>, call: Call)
    ensures Run(calls + [call]) == Apply(Run(calls), call)
  {
    assert (calls + [call])[..|calls|] == calls;
  }

  lemma AddedLast(s: State, name: string)
    requires forall t <- s.queue :: t.priority == 0
    ensures Added(s, name, 0, Nothing()) == s.(queue := s.queue + [Task(s.added, name, 0, Nothing())], added := s.added + 1, boosts := 0)
  {
    var q := s.queue + [Task(s.added, name, 0, Nothing())];
    assert forall i :: 0 <= i < |q| ==> q[i].priority == 0;
    SortOfSorted(q, ByPriority());
  }

  lemma {:induction false} AdditionsRun(n: nat)
    ensures Run(Additions(n)) == IDLE.(queue := Others(0, n), added := n)
  {
    hide Added;
    if n > 0 {
      AdditionsRun(n - 1);
      assert Additions(n) == Additions(n - 1) + [AddTask(OTHER, 0, Nothing())];
      RunAppend(Additions(n - 1), AddTask(OTHER, 0, Nothing()));
      AddedLast(Run(Additions(n - 1)), OTHER);
      assert Others(0, n) == Others(0, n - 1) + [Task(n - 1, OTHER, 0, Nothing())];
    }
  }

  lemma KernelIsKernel(id: nat, priority: int)
    ensures IsKernel(Task(id, KERNEL, priority, Nothing())) && !IsKernel(Task(id, OTHER, priority, Nothing()))
  {
    assert OccursAt(KERNEL, KERNEL, 0);
  }

  lemma BoostOfWaiting(from: nat, to: nat, id: nat, priority: int)
    requires from <= to
    ensures Map(Others(from, to) + [Task(id, KERNEL, priority, Nothing())], Raise()) == Others(from, to) + [Task(id, KERNEL, priority + 1, Nothing())]
  {
    hide Map, Contains;
    KernelIsKernel(id, priority);
    forall t | t in Others(from, to) ensures Raise()(t) == t {
      KernelIsKernel(t.id, t.priority);
    }
  }

  ghost predicate Waiting(s: State, n: nat, ticks: nat) {
    ticks <= n && s.boosts == ticks &&
    s.queue == Others(ticks, n + 1) + [Task(n + 1, KERNEL, ticks, Nothing())] &&
    s.policies == [Entry("boost", BoostKernel)]
  }

  lemma BoostAlone(s: State, context: Context)
    requires s.policies == [Entry("boost", BoostKernel)]
    ensures AppliedAll(s, s.policies, context) == Boosted(s, context)
  {
  }

  lemma WaitingTicks(s: State, n: nat, ticks: nat)
    requires Waiting(s, n, ticks) && ticks < n
    ensures Waiting(Ticked(s, UNREADY), n, ticks + 1)
  {
    hide Map, Contains, AppliedAll;
    BoostAlone(s, UNREADY);
    BoostOfWaiting(ticks, n + 1, n + 1, ticks);
    var t := Boosted(s, UNREADY);
    assert t.queue[1..] == Others(ticks + 1, n + 1) + [Task(n + 1, KERNEL, ticks + 1, Nothing())];
  }

  lemma WaitingStarts(n: nat)
    ensures Waiting(Run(Overtaking(n, 0)), n, 0)
  {
    hide Run;
    var calls := Additions(n + 1);
    AdditionsRun(n + 1);
    RunAppend(calls, AddTask(KERNEL, 0, Nothing()));
    AddedLast(Run(calls), KERNEL);
    RunAppend(calls + [AddTask(KERNEL, 0, Nothing())], AddPolicy("boost", BoostKernel));
    assert Overtaking(n, 0) == calls + [AddTask(KERNEL, 0, Nothing())] + [AddPolicy("boost", BoostKernel)];
  }

  lemma {:induction false} OvertakingWaits(n: nat, ticks: nat)
    requires ticks <= n
    ensures Waiting(Run(Overtaking(n, ticks)), n, ticks)
  {
    hide Waiting, Run;
    if ticks == 0 {
      WaitingStarts(n);
    } else {
      OvertakingWaits(n, ticks - 1);
      assert Overtaking(n, ticks) == Overtaking(n, ticks - 1) + [RunOnce(UNREADY)];
      RunAppend(Overtaking(n, ticks - 1), RunOnce(UNREADY));
      WaitingTicks(Run(Overtaking(n, ticks - 1)), n, ticks - 1);
    }
  }

  /** The bound is reached: any number of boosts can leave a task that many below the next. */
  lemma DisorderIsSharp(n: nat)
    ensures var s := Run(Overtaking(n, n));
      s.boosts == n && |s.queue| == 2 && s.queue[0].priority + n == s.queue[1].priority
  {
    OvertakingWaits(n, n);
  }

  // ----- Every task once -----

  function IdOf(): Task -> nat {
    (t: Task) => t.id
  }

  ghost function Ids(q: seq<Task>): multiset<nat> {
    multiset(Map(q, IdOf()))
  }

  ghost function Numbers(n: nat): multiset<nat> {
    if n == 0 then multiset{} else Numbers(n - 1) + multiset{n - 1}
  }

  lemma {:induction false} NumbersHoldEachOnce(n: nat, i: nat)
    ensures Numbers(n)[i] == if i < n then 1 else 0
  {
    if n > 0 {
      NumbersHoldEachOnce(n - 1, i);
    }
  }

  /** Each task added is queued, run or dropped, once. */
  ghost predicate Accounted(s: State) {
    Ids(s.queue) + Ids(s.ran) + Ids(s.dropped) == Numbers(s.added)
  }

  lemma IdsOfConcat(q: seq<Task>, r: seq<Task>)
    ensures Ids(q + r) == Ids(q) + Ids(r)
  {
    hide Map;
    MapConcat(q, r, IdOf());
  }

  lemma AddAccounts(s: State, name: string, priority: int, executor: Executor)
    requires Accounted(s)
    ensures Accounted(Added(s, name, priority, executor))
  {
    hide Map;
    var t := Task(s.added, name, priority, executor);
    SortMapMembers(s.queue + [t], IdOf(), ByPriority());
    MapAppend(s.queue, t, IdOf());
  }

  lemma BoostAccounts(s: State, context: Context)
    requires Accounted(s)
    ensures Accounted(Boosted(s, context))
  {
    hide Map;
    assert Map(Map(s.queue, Raise()), IdOf()) == Map(s.queue, IdOf());
  }

  lemma LimitAccounts(s: State, context: Context)
    requires Accounted(s)
    ensures Accounted(Limited(s, context))
  {
    var keep := AtLeast(Threshold(context));
    FilterSplits(s.queue, keep, IdOf());
    IdsOfConcat(s.dropped, Filter(s.queue, Not(keep)));
  }

  lemma PopAccounts(s: State)
    requires Accounted(s)
    ensures Accounted(Popped(s))
  {
    hide Ids;
    if s.queue != [] {
      assert s.queue == [s.queue[0]] + s.queue[1..];
      IdsOfConcat([s.queue[0]], s.queue[1..]);
      IdsOfConcat(s.ran, [s.queue[0]]);
    }
  }

  lemma {:induction false} PoliciesAccount(s: State, policies: seq<Entry<string, Policy>>, context: Context)
    requires Accounted(s)
    ensures Accounted(AppliedAll(s, policies, context))
    decreases |policies|
  {
    hide Accounted;
    if policies != [] {
      BoostAccounts(s, context);
      LimitAccounts(s, context);
      PoliciesAccount(Applied(s, policies[0].value, context), policies[1..], context);
    }
  }

  lemma IdleAccounts()
    ensures Accounted(IDLE)
  {
    assert Map<Task, nat>([], IdOf()) == [];
  }

  lemma PoliciesDoNotCount(s: State, policies: seq<Entry<string, Policy>>)
    requires Accounted(s)
    ensures Accounted(s.(policies := policies))
  {
  }

  lemma {:induction false} RunAccounts(calls: seq<Call>)
    ensures Accounted(Run(calls))
  {
    hide Accounted;
    if calls == [] {
      IdleAccounts();
    } else {
      var s, call := Run(calls[..|calls| - 1]), calls[|calls| - 1];
      RunAccounts(calls[..|calls| - 1]);
      match call
      case AddTask(name, priority, executor) => AddAccounts(s, name, priority, executor);
      case AddPolicy(title, policy) => PoliciesDoNotCount(s, Apply(s, call).policies);
      case RunOnce(context) =>
        PoliciesAccount(s, s.policies, context);
        PopAccounts(AppliedAll(s, s.policies, context));
    }
  }

  /** Each task added is queued, run or dropped, and once. */
  lemma EveryTaskOnce(calls: seq<Call>, i: nat)
    ensures var s := Run(calls);
      Ids(s.queue)[i] + Ids(s.ran)[i] + Ids(s.dropped)[i] == if i < s.added then 1 else 0
  {
    var s := Run(calls);
    RunAccounts(calls);
    NumbersHoldEachOnce(s.added, i);
    hide Ids;
  }

  // ----- Ticks -----

  datatype Result = Idle | Done(task: string, priority: int, result: string)

  function Report(t: Task, context: Context): Result {
    Done(t.name, t.priority, t.executor(context))
  }

  function ResultOf(s: State, context: Context): Result {
    if s.queue == [] then Idle else Report(s.queue[0], context)
  }

  function Ticks(s: State, context: Context, n: nat): State
    decreases n
  {
    if n == 0 then s else Ticks(Ticked(s, context), context, n - 1)
  }

  function Results(s: State, context: Context, n: nat): seq<Result>
    decreases n
  {
    if n == 0 then [] else [ResultOf(AppliedAll(s, s.policies, context), context)] + Results(Ticked(s, context), context, n - 1)
  }

  lemma {:induction false} PoliciesShrink(s: State, policies: seq<Entry<string, Policy>>, context: Context)
    ensures var t := AppliedAll(s, policies, context); |t.queue| <= |s.queue| && t.ran == s.ran
    decreases |policies|
  {
    if policies != [] {
      FilterShrinks(s.queue, AtLeast(Threshold(context)));
      PoliciesShrink(Applied(s, policies[0].value, context), policies[1..], context);
    }
  }

  lemma {:induction false} FilterShrinks(q: seq<Task>, p: Task -> bool)
    ensures |Filter(q, p)| <= |q|
  {
    if q != [] {
      FilterShrinks(q[..|q| - 1], p);
    }
  }

  ghost function Reports(ran: seq<Task>, context: Context): seq<Result> {
    seq(|ran|, i requires 0 <= i < |ran| => Report(ran[i], context))
  }

  ghost function Idling(n: nat): seq<Result> {
    seq(n, i requires 0 <= i < n => Idle)
  }

  lemma {:induction false} IdleStaysIdle(s: State, context: Context, n: nat)
    requires s.queue == []
    ensures Results(s, context, n) == Idling(n)
    ensures Ticks(s, context, n).queue == [] && Ticks(s, context, n).ran == s.ran
    decreases n
  {
    if n > 0 {
      PoliciesShrink(s, s.policies, context);
      IdleStaysIdle(Ticked(s, context), context, n - 1);
    }
  }

  /** Ticks report the tasks they run, one each, and then idle; as many ticks as there are tasks
      empty the queue. */
  lemma {:induction false} TicksRunOneEach(s: State, context: Context, n: nat) returns (done: seq<Task>)
    ensures |done| <= n && Ticks(s, context, n).ran == s.ran + done
    ensures Results(s, context, n) == Reports(done, context) + Idling(n - |done|)
    ensures |done| < n || |s.queue| <= n ==> Ticks(s, context, n).queue == []
    decreases n
  {
    var t := AppliedAll(s, s.policies, context);
    PoliciesShrink(s, s.policies, context);
    if n == 0 || t.queue == [] {
      done := [];
      assert s.ran + done == s.ran;
      if n > 0 {
        IdleStaysIdle(t, context, n - 1);
      }
    } else {
      var rest := TicksRunOneEach(Ticked(s, context), context, n - 1);
      done := [t.queue[0]] + rest;
      assert Reports(done, context) == [ResultOf(t, context)] + Reports(rest, context);
      assert s.ran + [t.queue[0]] + rest == s.ran + done;
    }
  }

  // ----- The scheduler -----

  class SchedTask {
    const name: string
    const executor: Executor
    ghost const id: nat
    var priority: int
    var completed: bool

    constructor (name: string, priority: int, executor: Executor, ghost id: nat)
      ensures this.name == name && this.priority == priority && this.executor == executor && this.id == id && !completed
    {
      this.name, this.priority, this.executor, this.id, completed := name, priority, executor, id, false;
    }

    ghost function AsTask(): Task
      reads this
    {
      Task(id, name, priority, executor)
    }

    method RunTask(context: Context) returns (result: Result)
      modifies this`completed
      ensures completed && result == Report(AsTask(), context) && result == Done(name, priority, executor(context))
    {
      var outcome := executor(context);
      completed := true;
      result := Done(name, priority, outcome);
    }
  }

  ghost function View(tasks: seq<SchedTask>): (q: seq<Task>)
    reads tasks
    ensures |q| == |tasks|
    ensures forall i :: 0 <= i < |tasks| ==> q[i] == tasks[i].AsTask()
  {
    seq(|tasks|, i requires 0 <= i < |tasks| reads tasks => tasks[i].AsTask())
  }

  /** Tasks with their priorities, to sort by. */
  function Tagged(tasks: seq<SchedTask>): (s: seq<(int, SchedTask)>)
    reads tasks
    ensures |s| == |tasks|
    ensures forall i :: 0 <= i < |tasks| ==> s[i] == (tasks[i].priority, tasks[i])
  {
    seq(|tasks|, i requires 0 <= i < |tasks| reads tasks => (tasks[i].priority, tasks[i]))
  }

  function ByTag(): ((int, SchedTask)) -> int {
    (p: (int, SchedTask)) => -p.0
  }

  function Untag(): ((int, SchedTask)) -> SchedTask {
    (p: (int, SchedTask)) => p.1
  }

  ghost function Seen(): ((int, SchedTask)) -> Task {
    (p: (int, SchedTask)) => Task(p.1.id, p.1.name, p.0, p.1.executor)
  }

  function SortTasks(tasks: seq<SchedTask>): seq<SchedTask>
    reads tasks
  {
    Map(Sort(Tagged(tasks), ByTag()), Untag())
  }

  lemma SortTasksSorts(tasks: seq<SchedTask>)
    ensures View(SortTasks(tasks)) == Sort(View(tasks), ByPriority())
    ensures multiset(SortTasks(tasks)) == multiset(tasks)
  {
    hide Map, Sort;
    var tagged := Tagged(tasks);
    var sorted := Sort(tagged, ByTag());
    SortMapped(tagged, Seen(), ByTag(), ByPriority());
    assert Map(tagged, Seen()) == View(tasks);
    forall i | 0 <= i < |sorted| ensures Seen()(sorted[i]) == View(SortTasks(tasks))[i] {
      SortElement(tagged, ByTag(), i);
    }
    assert Map(sorted, Seen()) == View(SortTasks(tasks));
    SortMapMembers(tagged, Untag(), ByTag());
    assert Map(tagged, Untag()) == tasks;
  }

  ghost predicate Among(tasks: seq<SchedTask>, others: seq<SchedTask>) {
    forall i :: 0 <= i < |tasks| ==> tasks[i] in others
  }

  class SchedQueue {
    var tasks: seq<SchedTask>

    ghost predicate Valid()
      reads this, tasks
    {
      Distinct(tasks) && forall t <- tasks :: !t.completed
    }

    constructor ()
      ensures Valid() && tasks == []
    {
      tasks := [];
    }

    method Add(task: SchedTask)
      requires Valid() && task !in tasks && !task.completed
      modifies this
      ensures Valid()
      ensures View(tasks) == Enqueued(old(View(tasks)), task.AsTask())
      ensures multiset(tasks) == multiset(old(tasks)) + multiset{task}
      ensures forall i :: 0 <= i < |tasks| ==> tasks[i] in old(tasks) || tasks[i] == task
    {
      hide Distinct, SortTasks, Enqueued, View;
      EnqueuedTasks(tasks, task);
      tasks := SortTasks(tasks + [task]);
    }

    method Pop() returns (task: Option<SchedTask>)
      requires Valid()
      modifies this
      ensures Valid()
      ensures old(tasks) == [] ==> task.None? && tasks == []
      ensures old(tasks) != [] ==> task == Some(old(tasks)[0]) && tasks == old(tasks)[1..] && task.value !in tasks
    {
      if tasks == [] {
        return None;
      }
      task := Some(tasks[0]);
      tasks := tasks[1..];
    }
  }

  lemma EnqueuedTasks(tasks: seq<SchedTask>, task: SchedTask)
    requires Distinct(tasks) && task !in tasks
    ensures View(SortTasks(tasks + [task])) == Enqueued(View(tasks), task.AsTask())
    ensures Distinct(SortTasks(tasks + [task]))
    ensures multiset(SortTasks(tasks + [task])) == multiset(tasks) + multiset{task}
    ensures forall t <- SortTasks(tasks + [task]) :: t in tasks || t == task
  {
    hide SortTasks, Sort;
    var all := tasks + [task];
    SortTasksSorts(all);
    assert View(all) == View(tasks) + [task.AsTask()];
    SameMembers(all, SortTasks(all));
  }

  lemma SameMembers(s: seq<SchedTask>, t: seq<SchedTask>)
    requires Distinct(s) && multiset(s) == multiset(t)
    ensures Distinct(t) && forall x <- t :: x in s
  {
    forall x | x in t ensures x in s {
      assert x in multiset(t);
    }
    forall i, j | 0 <= i < j < |t| ensures t[i] != t[j] {
      if t[i] == t[j] {
        TwiceCounts(t, i, j);
        OnceCounts(s, t[i]);
      }
    }
  }

  lemma TwiceCounts(t: seq<SchedTask>, i: nat, j: nat)
    requires i < j < |t| && t[i] == t[j]
    ensures multiset(t)[t[i]] >= 2
  {
    assert t == t[..j] + [t[j]] + t[j + 1..];
    assert t[..j][i] in multiset(t[..j]);
  }

  lemma {:induction false} OnceCounts(s: seq<SchedTask>, x: SchedTask)
    requires Distinct(s)
    ensures multiset(s)[x] <= 1
  {
    if s != [] {
      var n := |s| - 1;
      assert s == s[..n] + [s[n]];
      OnceCounts(s[..n], x);
      if x == s[n] {
        assert x !in s[..n];
      }
    }
  }

  // ----- Policies on the queue -----

  method PolicyBoostKernel(queue: SchedQueue, context: Context)
    requires queue.Valid()
    modifies queue.tasks
    ensures queue.Valid()
    ensures View(queue.tasks) == if Ready(context) then old(View(queue.tasks)) else Map(old(View(queue.tasks)), Raise())
    ensures forall i :: 0 <= i < |queue.tasks| ==>
      queue.tasks[i].priority ==
      old(queue.tasks[i].priority) + if context.kernelReady != Some(true) && Contains(queue.tasks[i].name, "kernel") then 1 else 0
  {
    if context.kernelReady == Some(true) {
      return;
    }
    hide Map, Contains;
    var tasks := queue.tasks;
    var i := 0;
    while i < |tasks|
      invariant i <= |tasks|
      invariant queue.tasks == tasks && Distinct(tasks)
      invariant forall t <- tasks :: !t.completed
      invariant forall j :: 0 <= j < i ==> View(tasks)[j] == Raise()(old(View(queue.tasks))[j])
      invariant forall j :: i <= j < |tasks| ==> View(tasks)[j] == old(View(queue.tasks))[j]
    {
      if Contains(tasks[i].name, "kernel") {
        tasks[i].priority := tasks[i].priority + 1;
      }
      i := i + 1;
    }
  }

  function AtLeastTasks(tasks: seq<SchedTask>, threshold: int): seq<SchedTask>
    reads tasks
  {
    if tasks == [] then []
    else
      var kept := AtLeastTasks(tasks[..|tasks| - 1], threshold);
      if tasks[|tasks| - 1].priority >= threshold then kept + [tasks[|tasks| - 1]] else kept
  }

  lemma {:induction false} AtLeastTasksSelects(tasks: seq<SchedTask>, threshold: int)
    ensures View(AtLeastTasks(tasks, threshold)) == Filter(View(tasks), AtLeast(threshold))
    ensures Among(AtLeastTasks(tasks, threshold), tasks)
    ensures Distinct(tasks) ==> Distinct(AtLeastTasks(tasks, threshold))
    ensures forall t <- tasks :: t in AtLeastTasks(tasks, threshold) <==> t.priority >= threshold
  {
    if tasks != [] {
      var n := |tasks| - 1;
      AtLeastTasksSelects(tasks[..n], threshold);
      assert Distinct(tasks) ==> Distinct(tasks[..n]) && tasks[n] !in tasks[..n];
      assert View(tasks)[..n] == View(tasks[..n]);
      assert forall t <- tasks :: t in tasks[..n] || t == tasks[n];
    }
  }

  method PolicyLimitLowPriority(queue: SchedQueue, context: Context)
    requires queue.Valid()
    modifies queue
    ensures queue.Valid()
    ensures View(queue.tasks) == Filter(old(View(queue.tasks)), AtLeast(Threshold(context)))
    ensures Among(queue.tasks, old(queue.tasks))
    ensures forall t <- old(queue.tasks) ::
      t in queue.tasks <==> t.priority >= if context.threshold.Some? then context.threshold.value else 0
  {
    var threshold := if context.threshold.Some? then context.threshold.value else 0;
    AtLeastTasksSelects(queue.tasks, threshold);
    queue.tasks := AtLeastTasks(queue.tasks, threshold);
  }

  class KernelScheduler {
    const queue: SchedQueue
    var policies: seq<Entry<string, Policy>>
    ghost var added: nat
    ghost var ran: seq<Task>
    ghost var dropped: seq<Task>
    ghost var boosts: nat

    ghost predicate Valid()
      reads this, queue, queue.tasks
    {
      queue.Valid()
    }

    ghost function Value(): State
      reads this, queue, queue.tasks
    {
      State(View(queue.tasks), policies, added, ran, dropped, boosts)
    }

    constructor ()
      ensures Valid() && Value() == IDLE && fresh(queue)
    {
      queue := new SchedQueue();
      policies, added, ran, dropped, boosts := [], 0, [], [], 0;
    }

    method AddTask(name: string, priority: int, executor: Executor) returns (task: SchedTask)
      requires Valid()
      modifies this, queue
      ensures Valid() && fresh(task) && multiset(queue.tasks) == multiset(old(queue.tasks)) + multiset{task}
      ensures Value() == Added(old(Value()), name, priority, executor)
      ensures forall i :: 0 <= i < |queue.tasks| ==> queue.tasks[i] in old(queue.tasks) || queue.tasks[i] == task
    {
      hide Enqueued;
      task := new SchedTask(name, priority, executor, added);
      queue.Add(task);
      added, boosts := added + 1, 0;
    }

    method AddPolicy(title: string, policy: Policy)
      requires Valid()
      modifies this
      ensures Valid()
      ensures Value() == old(Value()).(policies := Put(old(policies), title, policy))
    {
      policies := Put(policies, title, policy);
    }

    method ApplyPolicy(policy: Policy, context: Context)
      requires Valid()
      modifies this`dropped, this`boosts, queue, queue.tasks
      ensures Valid()
      ensures Value() == Applied(old(Value()), policy, context)
      ensures Among(queue.tasks, old(queue.tasks))
    {
      hide View, Map, Filter;
      match policy
      case BoostKernel =>
        PolicyBoostKernel(queue, context);
        boosts := if Ready(context) then boosts else boosts + 1;
      case LimitLowPriority =>
        dropped := dropped + Filter(View(queue.tasks), Not(AtLeast(Threshold(context))));
        PolicyLimitLowPriority(queue, context);
    }

    method ApplyPolicies(context: Context)
      requires Valid()
      modifies this`dropped, this`boosts, queue, queue.tasks
      ensures Valid()
      ensures Value() == AppliedAll(old(Value()), policies, context)
      ensures Among(queue.tasks, old(queue.tasks))
    {
      hide View, Applied;
      var i := 0;
      while i < |policies|
        invariant i <= |policies| && Valid()
        invariant AppliedAll(Value(), policies[i..], context) == AppliedAll(old(Value()), policies, context)
        invariant Among(queue.tasks, old(queue.tasks))
      {
        assert policies[i..][1..] == policies[i + 1..];
        ApplyPolicy(policies[i].value, context);
        i := i + 1;
      }
    }

    method PopAndRun(context: Context) returns (result: Result)
      requires Valid()
      modifies this`ran, queue, queue.tasks
      ensures Valid()
      ensures Value() == Popped(old(Value())) && result == ResultOf(old(Value()), context)
      ensures old(queue.tasks) != [] ==> old(queue.tasks)[0].completed
      ensures Among(queue.tasks, old(queue.tasks))
    {
      ghost var q := View(queue.tasks);
      var task := queue.Pop();
      if task.None? {
        return Idle;
      }
      result := task.value.RunTask(context);
      ran := ran + [q[0]];
      assert View(queue.tasks) == q[1..];
    }

    method RunOnce(context: Context) returns (result: Result)
      requires Valid()
      modifies this`ran, this`dropped, this`boosts, queue, queue.tasks
      ensures Valid()
      ensures Value() == Ticked(old(Value()), context)
      ensures result == ResultOf(AppliedAll(old(Value()), old(Value()).policies, context), context)
      ensures Among(queue.tasks, old(queue.tasks))
    {
      hide View, AppliedAll, Popped, ResultOf, Among;
      ApplyPolicies(context);
      AmongStays(queue.tasks, old(queue.tasks));
      ghost var left := queue.tasks;
      result := PopAndRun(context);
      AmongAgain(queue.tasks, left, old(queue.tasks));
    }

    method RunTicks(context: Context, ticks: nat) returns (results: seq<Result>)
      requires Valid()
      modifies this`ran, this`dropped, this`boosts, queue, queue.tasks
      ensures Valid()
      ensures Value() == Ticks(old(Value()), context, ticks)
      ensures results == Results(old(Value()), context, ticks)
      ensures Among(queue.tasks, old(queue.tasks))
    {
      hide View, Ticked, AppliedAll, Ticks, Results, ResultOf, Among, SchedQueue.Valid, Value;
      results := [];
      ghost var s, start := Value(), queue.tasks;
      AmongSelf(start);
      TicksNone(s, context);
      var i := 0;
      while i < ticks
        invariant i <= ticks && Valid() && Value() == s
        invariant Ticks(s, context, ticks - i) == Ticks(old(Value()), context, ticks)
        invariant results + Results(s, context, ticks - i) == Results(old(Value()), context, ticks)
        invariant Among(queue.tasks, start)
      {
        ghost var left := queue.tasks;
        AmongStays(left, start);
        TicksUnfold(s, context, ticks - i);
        var result := RunOnce(context);
        AmongAgain(queue.tasks, left, start);
        s := Ticked(s, context);
        ReportsJoin(results, result, Results(s, context, ticks - i - 1));
        results := results + [result];
        i := i + 1;
      }
      TicksNone(s, context);
    }
  }

  lemma ReportsJoin(results: seq<Result>, result: Result, rest: seq<Result>)
    ensures results + ([result] + rest) == results + [result] + rest
  {
  }

  lemma AmongSelf(tasks: seq<SchedTask>)
    ensures Among(tasks, tasks)
  {
  }

  lemma AmongStays(tasks: seq<SchedTask>, others: seq<SchedTask>)
    requires Among(tasks, others)
    ensures forall i :: 0 <= i < |tasks| ==> tasks[i] in others
  {
  }

  lemma AmongAgain(tasks: seq<SchedTask>, left: seq<SchedTask>, others: seq<SchedTask>)
    requires Among(tasks, left) && Among(left, others)
    ensures Among(tasks, others)
  {
  }

  lemma TicksNone(s: State, context: Context)
    ensures Ticks(s, context, 0) == s && Results(s, context, 0) == []
  {
  }

  lemma TicksUnfold(s: State, context: Context, n: nat)
    requires n > 0
    ensures Ticks(s, context, n) == Ticks(Ticked(s, context), context, n - 1)
    ensures Results(s, context, n) ==
      [ResultOf(AppliedAll(s, s.policies, context), context)] + Results(Ticked(s, context), context, n - 1)
  {
  }
}
