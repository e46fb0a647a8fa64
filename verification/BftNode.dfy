/** One node of the hierarchical BFT protocol, and clusters of such nodes under arbitrary
    delivery of messages: reordered, duplicated, or sent by faulty members. */
module BftNode {
  import opened Prelude

  const WATERMARK_LOW := 0
  const WATERMARK_HIGH := 1000

  /** Stands for the string "view:sequence", which `KeysPrintApart` shows to be as good. */
  datatype Key = Key(view: int, sequence: int)

  datatype Proposal = Proposal(proposalId: string, proposer: string, content: string, version: int, priority: int)

  datatype PrepareMessage = PrepareMessage(view: int, sequence: int, sender: string, payload: Proposal)

  // ----- A node and its steps -----

  /** `accepted` records, in order, each proposal taken in and the key it came under. */
  datatype Node = Node(
    nodeId: string,
    tolerance: int,
    view: int,
    sent: seq<PrepareMessage>,
    prepares: map<Key, set<string>>,
    commits: map<Key, set<string>>,
    committed: seq<Proposal>,
    pending: seq<Proposal>,
    accepted: seq<(Key, Proposal)>
  )

  datatype Delivery =
    | PrePrepare(view: int, sequence: int, proposal: Proposal)
    | Prepare(view: int, sequence: int, sender: string)
    | Commit(view: int, sequence: int, sender: string)

  function Votes(m: map<Key, set<string>>, k: Key): set<string> {
    if k in m then m[k] else {}
  }

  function Quorum(n: Node): int {
    2 * n.tolerance + 1
  }

  predicate InWatermarks(sequence: int) {
    WATERMARK_LOW <= sequence <= WATERMARK_HIGH
  }

  ghost function Deliver(n: Node, d: Delivery): Node {
    if d.view < n.view then n else
    match d
    case PrePrepare(view, sequence, proposal) =>
      if !InWatermarks(sequence) then n else
        n.(pending := n.pending + [proposal],
           sent := n.sent + [PrepareMessage(view, sequence, n.nodeId, proposal)],
           accepted := n.accepted + [(Key(view, sequence), proposal)])
    case Prepare(view, sequence, sender) =>
      if !InWatermarks(sequence) then n else
        var k := Key(view, sequence);
        n.(prepares := n.prepares[k := Votes(n.prepares, k) + {sender}])
    case Commit(view, sequence, sender) =>
      var k := Key(view, sequence);
      var votes := Votes(n.commits, k) + {sender};
      var counted := n.(commits := n.commits[k := votes]);
      if |votes| >= Quorum(n) && n.pending != [] then
        counted.(committed := n.committed + [n.pending[0]], pending := n.pending[1..])
      else counted
  }

  ghost function Fresh(nodeId: string, tolerance: int): Node {
    Node(nodeId, tolerance, 0, [], map[], map[], [], [], [])
  }

  ghost function Run(n: Node, ds: seq<Delivery>): Node {
    if ds == [] then n else Deliver(Run(n, ds[..|ds| - 1]), ds[|ds| - 1])
  }

  ghost function Proposals(accepted: seq<(Key, Proposal)>): seq<Proposal> {
    seq(|accepted|, i requires 0 <= i < |accepted| => accepted[i].1)
  }

  // ----- The ledger of a node -----

  /** What was accepted is exactly what was committed followed by what is pending. */
  ghost predicate Ledger(n: Node) {
    n.committed + n.pending == Proposals(n.accepted)
  }

  lemma DeliverKeepsLedger(n: Node, d: Delivery)
    requires Ledger(n)
    ensures Ledger(Deliver(n, d))
  {
    var m := Deliver(n, d);
    if |m.committed| > |n.committed| {
      assert n.pending == [n.pending[0]] + n.pending[1..];
    } else if |m.accepted| > |n.accepted| {
      assert Proposals(m.accepted) == Proposals(n.accepted) + [d.proposal];
    }
  }

  lemma {:induction false} RunKeepsLedger(n: Node, ds: seq<Delivery>)
    requires Ledger(n)
    ensures Ledger(Run(n, ds))
  {
    if ds != [] {
      RunKeepsLedger(n, ds[..|ds| - 1]);
      DeliverKeepsLedger(Run(n, ds[..|ds| - 1]), ds[|ds| - 1]);
    }
  }

  /** The senders of the commit messages for `k` among those delivered. */
  ghost function Committers(ds: seq<Delivery>, k: Key): set<string> {
    set d | d in ds && d.Commit? && Key(d.view, d.sequence) == k :: d.sender
  }

  lemma CommittersGrow(ds: seq<Delivery>, d: Delivery, k: Key)
    ensures Committers(ds + [d], k) ==
            Committers(ds, k) + if d.Commit? && Key(d.view, d.sequence) == k then {d.sender} else {}
  {
    assert forall e :: e in ds + [d] <==> e in ds || e == d;
    assert d in ds + [d];
  }

  lemma DeliverCountsVote(n: Node, d: Delivery, k: Key)
    requires n.view <= k.view
    ensures Deliver(n, d).view == n.view && Deliver(n, d).tolerance == n.tolerance
    ensures Votes(Deliver(n, d).commits, k) ==
            Votes(n.commits, k) + if d.Commit? && Key(d.view, d.sequence) == k then {d.sender} else {}
  {
  }

  /** The votes a node holds for a key are those of the senders that sent them. */
  lemma {:induction false} VotesAreCommitters(nodeId: string, tolerance: int, ds: seq<Delivery>, k: Key)
    requires k.view >= 0
    ensures Votes(Run(Fresh(nodeId, tolerance), ds).commits, k) == Committers(ds, k)
    ensures Run(Fresh(nodeId, tolerance), ds).view == 0 && Run(Fresh(nodeId, tolerance), ds).tolerance == tolerance
  {
    if ds != [] {
      var front, d := ds[..|ds| - 1], ds[|ds| - 1];
      VotesAreCommitters(nodeId, tolerance, front, k);
      assert ds == front + [d];
      CommittersGrow(front, d, k);
      DeliverCountsVote(Run(Fresh(nodeId, tolerance), front), d, k);
    }
  }

  /** The senders of the prepare messages for `k` among those delivered. */
  ghost function Preparers(ds: seq<Delivery>, k: Key): set<string> {
    set d | d in ds && d.Prepare? && Key(d.view, d.sequence) == k :: d.sender
  }

  lemma PreparersGrow(ds: seq<Delivery>, d: Delivery, k: Key)
    ensures Preparers(ds + [d], k) ==
            Preparers(ds, k) + if d.Prepare? && Key(d.view, d.sequence) == k then {d.sender} else {}
  {
    assert forall e :: e in ds + [d] <==> e in ds || e == d;
    assert d in ds + [d];
  }

  lemma DeliverCountsPrepare(n: Node, d: Delivery, k: Key)
    ensures Votes(Deliver(n, d).prepares, k) ==
            Votes(n.prepares, k) +
            if d.Prepare? && Key(d.view, d.sequence) == k && k.view >= n.view && 0 <= k.sequence <= 1000 then {d.sender} else {}
  {
  }

  /** The senders held as having prepared a key within the watermarks are exactly those that sent a
      prepare message for it; none are held for any other key. */
  lemma {:induction false} VotesArePreparers(nodeId: string, tolerance: int, ds: seq<Delivery>, k: Key)
    ensures Votes(Run(Fresh(nodeId, tolerance), ds).prepares, k) ==
            if k.view >= 0 && 0 <= k.sequence <= 1000 then Preparers(ds, k) else {}
  {
    hide Deliver, Preparers;
    if ds == [] {
      NobodyPrepared(nodeId, tolerance, k);
    } else {
      var front, d := ds[..|ds| - 1], ds[|ds| - 1];
      VotesArePreparers(nodeId, tolerance, front, k);
      VotesAreCommitters(nodeId, tolerance, front, Key(0, 0));
      assert ds == front + [d];
      PreparersGrow(front, d, k);
      DeliverCountsPrepare(Run(Fresh(nodeId, tolerance), front), d, k);
    }
  }

  lemma NobodyPrepared(nodeId: string, tolerance: int, k: Key)
    ensures Votes(Run(Fresh(nodeId, tolerance), []).prepares, k) == {} == Preparers([], k)
  {
  }

  /** A proposal is committed only by delivering a commit message for whose view and sequence
      2f+1 distinct senders have now sent one; it is then the oldest pending one. */
  lemma CommitsNeedQuorum(nodeId: string, tolerance: int, ds: seq<Delivery>, d: Delivery)
    ensures var n := Run(Fresh(nodeId, tolerance), ds);
      var m := Run(Fresh(nodeId, tolerance), ds + [d]);
      m.committed != n.committed <==>
      d.Commit? && d.view >= 0 && n.pending != [] && |Committers(ds + [d], Key(d.view, d.sequence))| >= 2 * tolerance + 1
    ensures var n := Run(Fresh(nodeId, tolerance), ds);
      var m := Run(Fresh(nodeId, tolerance), ds + [d]);
      m.committed != n.committed ==> n.pending != [] && m.committed == n.committed + [n.pending[0]]
  {
    hide Run, Deliver, Fresh, Committers;
    var n, k := Run(Fresh(nodeId, tolerance), ds), Key(d.view, d.sequence);
    RunAppends(Fresh(nodeId, tolerance), ds, d);
    VotesAreCommitters(nodeId, tolerance, ds, Key(0, 0));
    CommitStep(n, d);
    if d.view >= 0 {
      VotesAreCommitters(nodeId, tolerance, ds, k);
      CommittersGrow(ds, d, k);
    }
  }

  lemma RunAppends(n: Node, ds: seq<Delivery>, d: Delivery)
    ensures Run(n, ds + [d]) == Deliver(Run(n, ds), d)
  {
    assert (ds + [d])[..|ds|] == ds;
  }

  lemma CommitStep(n: Node, d: Delivery)
    ensures Deliver(n, d).committed ==
      if d.Commit? && d.view >= n.view && n.pending != [] &&
         |Votes(n.commits, Key(d.view, d.sequence)) + {d.sender}| >= Quorum(n)
      then n.committed + [n.pending[0]] else n.committed
  {
  }

  /** The i-th commit takes the i-th accepted proposal, whichever key its quorum was for. */
  lemma CommitTakesNextAccepted(n: Node, view: int, sequence: int, sender: string)
    requires Ledger(n) && Deliver(n, Commit(view, sequence, sender)).committed != n.committed
    ensures var m := Deliver(n, Commit(view, sequence, sender)); var i := |n.committed|;
      i < |n.accepted| && m.committed == n.committed + [n.accepted[i].1]
  {
    assert n.pending[0] == (n.committed + n.pending)[|n.committed|];
  }

  // ----- Which key a commit is for -----

  ghost predicate Commits(n: Node, d: Delivery) {
    Deliver(n, d).committed != n.committed
  }

  /** The keys of the commit messages that committed something, in order. */
  ghost function CommitKeys(n: Node, ds: seq<Delivery>): seq<Key> {
    if ds == [] then []
    else
      var front, d := ds[..|ds| - 1], ds[|ds| - 1];
      if Commits(Run(n, front), d) then CommitKeys(n, front) + [Key(d.view, d.sequence)] else CommitKeys(n, front)
  }

  ghost function KeysOf(accepted: seq<(Key, Proposal)>): (keys: seq<Key>)
    ensures |keys| == |accepted| && forall i :: 0 <= i < |keys| ==> keys[i] == accepted[i].0
  {
    seq(|accepted|, i requires 0 <= i < |accepted| => accepted[i].0)
  }

  /** What the delivery commits, if anything, was accepted under the delivery's key. */
  ghost predicate TakesOwn(n: Node, d: Delivery) {
    Commits(n, d) ==> |n.committed| < |n.accepted| && n.accepted[|n.committed|].0 == Key(d.view, d.sequence)
  }

  ghost predicate AlwaysTakesOwn(n: Node, ds: seq<Delivery>) {
    forall k :: 0 <= k < |ds| ==> TakesOwn(Run(n, ds[..k]), ds[k])
  }

  lemma DeliverExtends(n: Node, d: Delivery)
    requires Ledger(n)
    ensures n.accepted <= Deliver(n, d).accepted
    ensures Commits(n, d) ==>
      |n.committed| < |n.accepted| && Deliver(n, d).accepted == n.accepted && |Deliver(n, d).committed| == |n.committed| + 1
  {
    CommitStep(n, d);
  }

  lemma {:induction false} CommitKeysAreCommits(n: Node, ds: seq<Delivery>)
    requires Ledger(n) && n.committed == []
    ensures |CommitKeys(n, ds)| == |Run(n, ds).committed| <= |Run(n, ds).accepted|
  {
    RunKeepsLedger(n, ds);
    if ds != [] {
      CommitKeysAreCommits(n, ds[..|ds| - 1]);
      RunKeepsLedger(n, ds[..|ds| - 1]);
      DeliverExtends(Run(n, ds[..|ds| - 1]), ds[|ds| - 1]);
    }
    hide Deliver;
  }

  lemma AlwaysUpToLast(n: Node, ds: seq<Delivery>)
    requires ds != []
    ensures var front := ds[..|ds| - 1];
      AlwaysTakesOwn(n, ds) <==> AlwaysTakesOwn(n, front) && TakesOwn(Run(n, front), ds[|ds| - 1])
  {
    hide TakesOwn, Run;
    var m := |ds| - 1;
    assert forall k :: 0 <= k <= m ==> ds[..m][..k] == ds[..k];
  }

  lemma {:induction false} CommitsTakeOwnKeys(n: Node, ds: seq<Delivery>)
    requires Ledger(n) && n.committed == []
    ensures AlwaysTakesOwn(n, ds) <==> CommitKeys(n, ds) <= KeysOf(Run(n, ds).accepted)
  {
    hide Deliver, TakesOwn, AlwaysTakesOwn;
    if ds == [] {
      NoneIsOwn(n);
    } else {
      var front, d := ds[..|ds| - 1], ds[|ds| - 1];
      CommitsTakeOwnKeys(n, front);
      AlwaysUpToLast(n, ds);
      RunKeepsLedger(n, front);
      CommitKeysAreCommits(n, front);
      LastKeyDecides(Run(n, front), d, CommitKeys(n, front));
    }
  }

  // ----- The same keys, read off the deliveries -----

  /** The keys of the proposals that a new node accepts, in order. */
  ghost function AcceptedKeys(ds: seq<Delivery>): seq<Key> {
    if ds == [] then [] else
      var rest, d := AcceptedKeys(ds[..|ds| - 1]), ds[|ds| - 1];
      if d.PrePrepare? && d.view >= 0 && 0 <= d.sequence <= 1000 then rest + [Key(d.view, d.sequence)] else rest
  }

  /** The keys of the commit messages that come with a quorum of senders while fewer keys have
      committed than were accepted, in order. */
  ghost function CommittingKeys(tolerance: int, ds: seq<Delivery>): seq<Key> {
    if ds == [] then [] else
      var front, d := ds[..|ds| - 1], ds[|ds| - 1];
      var rest, k := CommittingKeys(tolerance, front), Key(d.view, d.sequence);
      if d.Commit? && d.view >= 0 && |Committers(ds, k)| >= 2 * tolerance + 1 && |rest| < |AcceptedKeys(front)|
      then rest + [k] else rest
  }

  lemma AcceptStep(n: Node, d: Delivery)
    ensures KeysOf(Deliver(n, d).accepted) ==
      KeysOf(n.accepted) + if d.PrePrepare? && d.view >= n.view && 0 <= d.sequence <= 1000 then [Key(d.view, d.sequence)] else []
  {
  }

  lemma {:induction false} AcceptedKeysExactly(nodeId: string, tolerance: int, ds: seq<Delivery>)
    ensures KeysOf(Run(Fresh(nodeId, tolerance), ds).accepted) == AcceptedKeys(ds)
  {
    hide Deliver;
    if ds != [] {
      var front := ds[..|ds| - 1];
      AcceptedKeysExactly(nodeId, tolerance, front);
      VotesAreCommitters(nodeId, tolerance, front, Key(0, 0));
      AcceptStep(Run(Fresh(nodeId, tolerance), front), ds[|ds| - 1]);
    }
  }

  /** The keys that commit, which the node's own commits show, are decided by the deliveries. */
  lemma {:induction false} CommittingKeysExactly(nodeId: string, tolerance: int, ds: seq<Delivery>)
    ensures CommitKeys(Fresh(nodeId, tolerance), ds) == CommittingKeys(tolerance, ds)
  {
    hide Run, Deliver, Committers, Ledger;
    if ds != [] {
      var n, front, d := Fresh(nodeId, tolerance), ds[..|ds| - 1], ds[|ds| - 1];
      assert ds == front + [d];
      CommittingKeysExactly(nodeId, tolerance, front);
      AcceptedKeysExactly(nodeId, tolerance, front);
      FreshIsBalanced(nodeId, tolerance);
      CommitKeysAreCommits(n, front);
      RunKeepsLedger(n, front);
      PendingAreAhead(Run(n, front));
      RunAppends(n, front, d);
      CommitsNeedQuorum(nodeId, tolerance, front, d);
    }
  }

  lemma FreshIsBalanced(nodeId: string, tolerance: int)
    ensures Ledger(Fresh(nodeId, tolerance)) && Fresh(nodeId, tolerance).committed == []
  {
  }

  lemma PendingAreAhead(n: Node)
    requires Ledger(n)
    ensures n.pending != [] <==> |n.committed| < |n.accepted|
  {
  }

  /** The proposals that a new node accepts, with their keys, in order. */
  ghost function Taken(ds: seq<Delivery>): seq<(Key, Proposal)> {
    if ds == [] then [] else
      var rest, d := Taken(ds[..|ds| - 1]), ds[|ds| - 1];
      if d.PrePrepare? && d.view >= 0 && 0 <= d.sequence <= 1000 then rest + [(Key(d.view, d.sequence), d.proposal)] else rest
  }

  /** Each accepted proposal is answered by a prepare message of the node's own. */
  ghost predicate Answered(nodeId: string, sent: seq<PrepareMessage>, taken: seq<(Key, Proposal)>) {
    |sent| == |taken| && forall i :: 0 <= i < |sent| ==>
      sent[i] == PrepareMessage(taken[i].0.view, taken[i].0.sequence, nodeId, taken[i].1)
  }

  lemma TakeStep(n: Node, d: Delivery, taken: seq<(Key, Proposal)>)
    requires n.accepted == taken && Answered(n.nodeId, n.sent, taken)
    ensures var more := if d.PrePrepare? && d.view >= n.view && 0 <= d.sequence <= 1000 then taken + [(Key(d.view, d.sequence), d.proposal)] else taken;
      Deliver(n, d).accepted == more && Deliver(n, d).nodeId == n.nodeId && Answered(n.nodeId, Deliver(n, d).sent, more)
  {
  }

  lemma {:induction false} TakenExactly(nodeId: string, tolerance: int, ds: seq<Delivery>)
    ensures var n := Run(Fresh(nodeId, tolerance), ds);
      n.accepted == Taken(ds) && n.nodeId == nodeId && Answered(nodeId, n.sent, Taken(ds))
  {
    hide Deliver, Answered;
    if ds == [] {
      NothingTaken(nodeId, tolerance);
    } else {
      var front := ds[..|ds| - 1];
      TakenExactly(nodeId, tolerance, front);
      VotesAreCommitters(nodeId, tolerance, front, Key(0, 0));
      TakeStep(Run(Fresh(nodeId, tolerance), front), ds[|ds| - 1], Taken(front));
    }
  }

  lemma NothingTaken(nodeId: string, tolerance: int)
    ensures Answered(nodeId, Run(Fresh(nodeId, tolerance), []).sent, [])
  {
  }

  /** What any deliveries leave in a new node: the proposals accepted, each answered; committed, the
      first of them, one for each commit message that came with a quorum while one was left; and
      pending the others, in order. */
  lemma NodeFollowsTheDeliveries(nodeId: string, tolerance: int, ds: seq<Delivery>)
    ensures var n, c := Run(Fresh(nodeId, tolerance), ds), |CommittingKeys(tolerance, ds)|;
      n.accepted == Taken(ds) && Answered(nodeId, n.sent, Taken(ds)) && c <= |Taken(ds)| &&
      n.committed == Proposals(Taken(ds))[..c] && n.pending == Proposals(Taken(ds))[c..]
  {
    hide Run, Deliver, Answered, CommittingKeys, CommitKeys, Taken;
    TakenExactly(nodeId, tolerance, ds);
    CommittingKeysExactly(nodeId, tolerance, ds);
    FreshIsBalanced(nodeId, tolerance);
    CommitKeysAreCommits(Fresh(nodeId, tolerance), ds);
    RunKeepsLedger(Fresh(nodeId, tolerance), ds);
    var n := Run(Fresh(nodeId, tolerance), ds);
    assert (n.committed + n.pending)[..|n.committed|] == n.committed;
    assert (n.committed + n.pending)[|n.committed|..] == n.pending;
  }

  /** Over any run of a new node, every commit takes a proposal accepted under its own key exactly
      when the keys that the deliveries let commit are, in order, the first of the keys accepted. */
  lemma CommitsTakeOwnExactlyWhen(nodeId: string, tolerance: int, ds: seq<Delivery>)
    ensures AlwaysTakesOwn(Fresh(nodeId, tolerance), ds) <==> CommittingKeys(tolerance, ds) <= AcceptedKeys(ds)
  {
    hide AlwaysTakesOwn, CommitKeys, CommittingKeys, AcceptedKeys, Run;
    CommitsTakeOwnKeys(Fresh(nodeId, tolerance), ds);
    CommittingKeysExactly(nodeId, tolerance, ds);
    AcceptedKeysExactly(nodeId, tolerance, ds);
  }

  lemma NoneIsOwn(n: Node)
    ensures AlwaysTakesOwn(n, [])
  {
  }

  lemma LastKeyDecides(n: Node, d: Delivery, keys: seq<Key>)
    requires Ledger(n) && |keys| == |n.committed| <= |n.accepted|
    ensures var after := if Commits(n, d) then keys + [Key(d.view, d.sequence)] else keys;
      after <= KeysOf(Deliver(n, d).accepted) <==> keys <= KeysOf(n.accepted) && TakesOwn(n, d)
  {
    hide Deliver;
    DeliverExtends(n, d);
    var before, later := KeysOf(n.accepted), KeysOf(Deliver(n, d).accepted);
    assert forall i :: 0 <= i < |n.accepted| ==> Deliver(n, d).accepted[i] == n.accepted[i];
    assert before <= later;
    if Commits(n, d) {
      assert before == later;
      var k := Key(d.view, d.sequence);
      assert (keys + [k])[|keys|] == k && (keys + [k])[..|keys|] == keys;
    }
  }

  ghost predicate OnceAccepted(accepted: seq<(Key, Proposal)>) {
    forall i, j :: 0 <= i < j < |accepted| ==> accepted[i].1 != accepted[j].1
  }

  /** Of proposals accepted once each, a commit message commits one accepted under its own key
      exactly when that is the key of the next accepted. */
  lemma CommitTakesOwnExactlyWhen(n: Node, view: int, sequence: int, sender: string)
    requires Ledger(n) && OnceAccepted(n.accepted) && Commits(n, Commit(view, sequence, sender))
    ensures var m := Deliver(n, Commit(view, sequence, sender));
      |n.committed| < |n.accepted| && |m.committed| == |n.committed| + 1 &&
      ((Key(view, sequence), m.committed[|n.committed|]) in n.accepted <==>
       n.accepted[|n.committed|].0 == Key(view, sequence))
  {
    DeliverExtends(n, Commit(view, sequence, sender));
    CommitTakesNextAccepted(n, view, sequence, sender);
    hide Deliver;
  }

  // ----- Agreement -----

  ghost predicate Comparable(a: seq<Proposal>, b: seq<Proposal>) {
    a <= b || b <= a
  }

  /** A cluster: each message is handed to one node, named by its index. */
  ghost function ToNode(steps: seq<(nat, Delivery)>, i: nat): seq<Delivery> {
    if steps == [] then [] else
      var rest := ToNode(steps[..|steps| - 1], i);
      if steps[|steps| - 1].0 == i then rest + [steps[|steps| - 1].1] else rest
  }

  ghost function RunCluster(nodes: seq<Node>, steps: seq<(nat, Delivery)>): seq<Node> {
    if steps == [] then nodes else
      var before := RunCluster(nodes, steps[..|steps| - 1]);
      var (i, d) := steps[|steps| - 1];
      if i < |before| then before[i := Deliver(before[i], d)] else before
  }

  lemma {:induction false} ClusterRunsNodes(nodes: seq<Node>, steps: seq<(nat, Delivery)>, i: nat)
    requires i < |nodes|
    ensures |RunCluster(nodes, steps)| == |nodes| && RunCluster(nodes, steps)[i] == Run(nodes[i], ToNode(steps, i))
  {
    if steps != [] {
      ClusterRunsNodes(nodes, steps[..|steps| - 1], i);
      var rest := ToNode(steps[..|steps| - 1], i);
      var d := steps[|steps| - 1].1;
      assert (rest + [d])[..|rest|] == rest;
    }
  }

  /** Nodes that accept proposals in one common order always have committed logs one of which
      is a prefix of the other, whatever messages are delivered, repeated or forged. */
  lemma CommittedLogsAgree(nodes: seq<Node>, steps: seq<(nat, Delivery)>, order: seq<Proposal>, i: nat, j: nat)
    requires i < |nodes| && j < |nodes|
    requires forall k :: 0 <= k < |nodes| ==> Ledger(nodes[k])
    requires |RunCluster(nodes, steps)| == |nodes|
    requires Proposals(RunCluster(nodes, steps)[i].accepted) <= order
    requires Proposals(RunCluster(nodes, steps)[j].accepted) <= order
    ensures Comparable(RunCluster(nodes, steps)[i].committed, RunCluster(nodes, steps)[j].committed)
  {
    forall k | k == i || k == j ensures RunCluster(nodes, steps)[k].committed <= order {
      ClusterRunsNodes(nodes, steps, k);
      RunKeepsLedger(nodes[k], ToNode(steps, k));
      var n := RunCluster(nodes, steps)[k];
      assert n.committed <= n.committed + n.pending;
    }
  }

  // ----- The common order cannot be dropped -----

  ghost function Tally(k: nat): string {
    if k == 0 then "" else Tally(k - 1) + "I"
  }

  lemma {:induction false} TallyLength(k: nat)
    ensures |Tally(k)| == k
  {
    if k > 0 {
      TallyLength(k - 1);
    }
  }

  /** Commit messages for one view and sequence from `k` distinct senders. */
  ghost function Flood(view: int, sequence: int, k: nat): seq<Delivery> {
    if k == 0 then [] else Flood(view, sequence, k - 1) + [Commit(view, sequence, Tally(k))]
  }

  ghost function Needed(n: Node): nat {
    if n.tolerance > 0 then 2 * n.tolerance else 0
  }

  ghost predicate OnlyCommits(ds: seq<Delivery>) {
    forall d :: d in ds ==> d.Commit?
  }

  ghost function Tallies(k: nat): set<string> {
    if k == 0 then {} else Tallies(k - 1) + {Tally(k)}
  }

  lemma {:induction false} TalliesAreMany(k: nat)
    ensures |Tallies(k)| == k && forall s :: s in Tallies(k) ==> |s| <= k
  {
    if k > 0 {
      TalliesAreMany(k - 1);
      TallyLength(k);
    }
  }

  lemma CommitShrinksPending(n: Node, sequence: int, sender: string)
    ensures var m := Deliver(n, Commit(n.view, sequence, sender));
      m.accepted == n.accepted && m.view == n.view && m.tolerance == n.tolerance &&
      |m.pending| <= |n.pending| &&
      (|Votes(m.commits, Key(n.view, sequence))| > Needed(n) && n.pending != [] ==> |m.pending| == |n.pending| - 1)
  {
  }

  lemma FloodEnds(n: Node, sequence: int, k: nat)
    requires k > 0
    ensures Run(n, Flood(n.view, sequence, k)) ==
            Deliver(Run(n, Flood(n.view, sequence, k - 1)), Commit(n.view, sequence, Tally(k)))
  {
    var ds := Flood(n.view, sequence, k - 1);
    assert (ds + [Commit(n.view, sequence, Tally(k))])[..|ds|] == ds;
  }

  /** `m` holds the votes of the first `k` senders of a flood. */
  ghost predicate Flooded(n: Node, sequence: int, k: nat, m: Node) {
    m.accepted == n.accepted && m.view == n.view && m.tolerance == n.tolerance &&
    Tallies(k) <= Votes(m.commits, Key(n.view, sequence)) &&
    |m.pending| <= |n.pending| &&
    (k >= Needed(n) ==> m.pending == [] || |m.pending| <= |n.pending| - (k - Needed(n)))
  }

  lemma FloodStep(n: Node, sequence: int, k: nat, m: Node)
    requires Flooded(n, sequence, k, m)
    ensures Flooded(n, sequence, k + 1, Deliver(m, Commit(n.view, sequence, Tally(k + 1))))
  {
    CommitShrinksPending(m, sequence, Tally(k + 1));
    DeliverCountsVote(m, Commit(n.view, sequence, Tally(k + 1)), Key(n.view, sequence));
    hide Deliver;
    TalliesAreMany(k + 1);
    SubsetSize(Tallies(k + 1), Votes(Deliver(m, Commit(n.view, sequence, Tally(k + 1))).commits, Key(n.view, sequence)));
  }

  /** From the 2f+1-st sender on, each delivery commits one more proposal. */
  lemma {:induction false} FloodCommits(n: Node, sequence: int, k: nat)
    ensures Flooded(n, sequence, k, Run(n, Flood(n.view, sequence, k)))
  {
    if k > 0 {
      FloodCommits(n, sequence, k - 1);
      FloodEnds(n, sequence, k);
      hide Flooded;
      FloodStep(n, sequence, k - 1, Run(n, Flood(n.view, sequence, k - 1)));
    }
  }

  lemma SubsetSize(a: set<string>, b: set<string>)
    requires a <= b
    ensures |a| <= |b|
  {
    assert b == a + (b - a);
  }

  /** Every node can be made to commit all it accepted. */
  lemma CanCommitAll(n: Node) returns (ds: seq<Delivery>)
    requires Ledger(n)
    ensures OnlyCommits(ds) && Run(n, ds).committed == Proposals(n.accepted)
  {
    var k := Needed(n) + |n.pending|;
    FloodCommits(n, 0, k);
    RunKeepsLedger(n, Flood(n.view, 0, k));
    FloodIsCommits(n.view, 0, k);
    ds := Flood(n.view, 0, k);
    var m := Run(n, ds);
    assert m.committed == m.committed + m.pending;
  }

  lemma {:induction false} FloodIsCommits(view: int, sequence: int, k: nat)
    ensures OnlyCommits(Flood(view, sequence, k))
  {
    if k > 0 {
      FloodIsCommits(view, sequence, k - 1);
    }
  }

  /** A quorum for one sequence can commit a proposal that came under another: of two accepted
      proposals the first is committed, though all the votes are for the second's sequence. */
  lemma QuorumCanCommitAnotherKey(nodeId: string, f: nat, s: int, t: int, p: Proposal, q: Proposal)
    requires InWatermarks(s) && InWatermarks(t) && s != t && p != q
    ensures var ds := [PrePrepare(0, s, p), PrePrepare(0, t, q)];
      var m := Run(Run(Fresh(nodeId, f), ds), Flood(0, t, 2 * f + 1));
      m.accepted == [(Key(0, s), p), (Key(0, t), q)] && m.committed != [] && m.committed[0] == p
  {
    var ds := [PrePrepare(0, s, p), PrePrepare(0, t, q)];
    assert ds[..1] == [PrePrepare(0, s, p)] && ds[..1][..0] == [];
    var n := Run(Fresh(nodeId, f), ds);
    assert Run(Fresh(nodeId, f), ds[..1]) == Deliver(Fresh(nodeId, f), ds[0]);
    assert n.accepted == [(Key(0, s), p), (Key(0, t), q)] && n.pending == [p, q];
    assert n.committed + n.pending == Proposals(n.accepted);
    FloodCommits(n, t, 2 * f + 1);
    RunKeepsLedger(n, Flood(0, t, 2 * f + 1));
    var m := Run(n, Flood(0, t, 2 * f + 1));
    assert m.committed[0] == (m.committed + m.pending)[0];
  }

  ghost predicate AlwaysAgree(a: Node, b: Node) {
    forall ds: seq<Delivery>, es: seq<Delivery> :: OnlyCommits(ds) && OnlyCommits(es) ==>
      Comparable(Run(a, ds).committed, Run(b, es).committed)
  }

  lemma {:induction false} CommitsAcceptNothing(n: Node, ds: seq<Delivery>)
    requires OnlyCommits(ds)
    ensures Run(n, ds).accepted == n.accepted
  {
    if ds != [] {
      assert ds[|ds| - 1] in ds;
      CommitsAcceptNothing(n, ds[..|ds| - 1]);
    }
  }

  /** Without a common order logs do diverge: two nodes agree under every delivery of commit
      messages exactly when one has accepted a prefix of what the other has. */
  lemma AgreementNeedsCommonOrder(a: Node, b: Node)
    requires Ledger(a) && Ledger(b)
    ensures AlwaysAgree(a, b) <==> Comparable(Proposals(a.accepted), Proposals(b.accepted))
  {
    if AlwaysAgree(a, b) {
      var ds := CanCommitAll(a);
      var es := CanCommitAll(b);
      assert Comparable(Run(a, ds).committed, Run(b, es).committed);
    }
    if Comparable(Proposals(a.accepted), Proposals(b.accepted)) {
      forall ds: seq<Delivery>, es: seq<Delivery> | OnlyCommits(ds) && OnlyCommits(es)
        ensures Comparable(Run(a, ds).committed, Run(b, es).committed)
      {
        CommittedIsPrefix(a, ds);
        CommittedIsPrefix(b, es);
      }
    }
  }

  lemma CommittedIsPrefix(n: Node, ds: seq<Delivery>)
    requires Ledger(n) && OnlyCommits(ds)
    ensures Run(n, ds).committed <= Proposals(n.accepted)
  {
    RunKeepsLedger(n, ds);
    CommitsAcceptNothing(n, ds);
    var m := Run(n, ds);
    assert m.committed <= m.committed + m.pending;
  }

  // ----- Quorums -----

  lemma SizeOfUnion(a: set<string>, b: set<string>)
    ensures |a + b| + |a * b| == |a| + |b|
  {
    assert a + b == a + (b - a) && b == (b - a) + (a * b);
  }

  /** Of 3f+1 members at most f of which are faulty, a quorum has f+1 honest ones, and two
      nodes' quorums for one view and sequence share at least f+1 senders, one of them honest. */
  lemma QuorumsShareHonestSenders(members: set<string>, faulty: set<string>, f: nat, ds: seq<Delivery>, es: seq<Delivery>, k: Key)
    requires |members| == 3 * f + 1 && faulty <= members && |faulty| <= f
    requires Committers(ds, k) <= members && Committers(es, k) <= members
    requires |Committers(ds, k)| >= 2 * f + 1 && |Committers(es, k)| >= 2 * f + 1
    ensures |Committers(ds, k) - faulty| >= f + 1
    ensures |Committers(ds, k) * Committers(es, k)| >= f + 1
    ensures Committers(ds, k) * Committers(es, k) - faulty != {}
  {
    var p, q := Committers(ds, k), Committers(es, k);
    SizeOfUnion(p, q);
    SubsetSize(p + q, members);
    assert p == (p - faulty) + (p * faulty);
    SubsetSize(p * faulty, faulty);
    if p * q - faulty == {} {
      SubsetSize(p * q, faulty);
    }
  }

  // ----- The node as an object -----

  lemma WithoutHead(s: seq<Proposal>)
    requires s != []
    ensures Without(s, s[0]) == s[1..]
  {
  }

  class BftNode {
    const nodeId: string
    const faultTolerance: int
    var viewNumber: int
    var sentMessages: seq<PrepareMessage>
    var prepareMessages: map<Key, set<string>>
    var commitMessages: map<Key, set<string>>
    var committedProposals: seq<Proposal>
    var pendingProposals: seq<Proposal>
    ghost var accepted: seq<(Key, Proposal)>

    ghost function View(): Node
      reads this
    {
      Node(nodeId, faultTolerance, viewNumber, sentMessages, prepareMessages, commitMessages,
           committedProposals, pendingProposals, accepted)
    }

    ghost predicate Valid()
      reads this
    {
      Ledger(View())
    }

    constructor (nodeId: string, faultTolerance: int)
      ensures Valid() && View() == Fresh(nodeId, faultTolerance)
    {
      this.nodeId, this.faultTolerance, viewNumber := nodeId, faultTolerance, 0;
      sentMessages, prepareMessages, commitMessages := [], map[], map[];
      committedProposals, pendingProposals, accepted := [], [], [];
    }

    method OnPrePrepare(view: int, sequence: int, proposal: Proposal) returns (ok: bool)
      requires Valid()
      modifies this
      ensures Valid() && View() == Deliver(old(View()), PrePrepare(view, sequence, proposal))
      ensures ok == (view >= viewNumber && 0 <= sequence <= 1000)
    {
      DeliverKeepsLedger(View(), PrePrepare(view, sequence, proposal));
      if view < viewNumber {
        return false;
      }
      if sequence < WATERMARK_LOW || sequence > WATERMARK_HIGH {
        return false;
      }
      pendingProposals := pendingProposals + [proposal];
      sentMessages := sentMessages + [PrepareMessage(view, sequence, nodeId, proposal)];
      accepted := accepted + [(Key(view, sequence), proposal)];
      return true;
    }

    method OnPrepare(view: int, sequence: int, sender: string) returns (ok: bool)
      requires Valid()
      modifies this
      ensures Valid() && View() == Deliver(old(View()), Prepare(view, sequence, sender))
      ensures ok == (view >= viewNumber && 0 <= sequence <= 1000 &&
                     |Votes(old(prepareMessages), Key(view, sequence)) + {sender}| >= 2 * faultTolerance + 1)
    {
      DeliverKeepsLedger(View(), Prepare(view, sequence, sender));
      if view < viewNumber {
        return false;
      }
      if sequence < WATERMARK_LOW || sequence > WATERMARK_HIGH {
        return false;
      }
      var key := Key(view, sequence);
      prepareMessages := prepareMessages[key := Votes(prepareMessages, key) + {sender}];
      var requiredPrepares := 2 * faultTolerance + 1;
      return |prepareMessages[key]| >= requiredPrepares;
    }

    method OnCommit(view: int, sequence: int, sender: string) returns (ok: bool)
      requires Valid()
      modifies this
      ensures Valid() && View() == Deliver(old(View()), Commit(view, sequence, sender))
      ensures ok == (committedProposals != old(committedProposals))
    {
      DeliverKeepsLedger(View(), Commit(view, sequence, sender));
      hide Ledger;
      if view < viewNumber {
        return false;
      }
      var key := Key(view, sequence);
      commitMessages := commitMessages[key := Votes(commitMessages, key) + {sender}];
      var requiredCommits := 2 * faultTolerance + 1;
      if |commitMessages[key]| >= requiredCommits {
        if pendingProposals != [] {
          var proposal := pendingProposals[0];
          WithoutHead(pendingProposals);
          committedProposals := committedProposals + [proposal];
          pendingProposals := Without(pendingProposals, proposal);
          return true;
        }
      }
      return false;
    }
  }

  // ----- Whole runs on the object -----

  method DeliverTo(node: BftNode, d: Delivery) returns (ok: bool)
    requires node.Valid()
    modifies node
    ensures node.Valid() && node.View() == Deliver(old(node.View()), d)
    ensures d.Prepare? ==>
      ok == (d.view >= node.viewNumber && 0 <= d.sequence <= 1000 &&
             |Votes(old(node.prepareMessages), Key(d.view, d.sequence)) + {d.sender}| >= 2 * node.faultTolerance + 1)
    ensures d.PrePrepare? ==> ok == (d.view >= node.viewNumber && 0 <= d.sequence <= 1000)
    ensures d.Commit? ==> ok == (node.committedProposals != old(node.committedProposals))
  {
    hide Deliver;
    match d
    case PrePrepare(view, sequence, proposal) => ok := node.OnPrePrepare(view, sequence, proposal);
    case Prepare(view, sequence, sender) => ok := node.OnPrepare(view, sequence, sender);
    case Commit(view, sequence, sender) => ok := node.OnCommit(view, sequence, sender);
  }

  /** Whatever is delivered to a new node, in whatever order, the last call reports of a proposal
      whether its view is not old and its sequence within the watermarks; of a prepare message,
      whether also 2f+1 distinct senders have now sent one for its key; of a commit message,
      whether 2f+1 have and a proposal was left to commit. */
  method ReportAfter(nodeId: string, tolerance: int, ds: seq<Delivery>, d: Delivery) returns (ok: bool)
    ensures d.PrePrepare? ==> ok == (d.view >= 0 && 0 <= d.sequence <= 1000)
    ensures d.Prepare? ==>
      ok == (d.view >= 0 && 0 <= d.sequence <= 1000 && |Preparers(ds + [d], Key(d.view, d.sequence))| >= 2 * tolerance + 1)
    ensures d.Commit? ==>
      ok == (d.view >= 0 && |CommittingKeys(tolerance, ds)| < |Taken(ds)| &&
             |Committers(ds + [d], Key(d.view, d.sequence))| >= 2 * tolerance + 1)
  {
    hide Deliver, Run, Preparers, Committers, CommittingKeys, Taken, BftNode.Valid;
    var node := new BftNode(nodeId, tolerance);
    RunNone(Fresh(nodeId, tolerance));
    assert ds[..0] == [];
    for i := 0 to |ds|
      invariant node.Valid() && node.View() == Run(Fresh(nodeId, tolerance), ds[..i])
    {
      RunAppends(Fresh(nodeId, tolerance), ds[..i], ds[i]);
      assert ds[..i + 1] == ds[..i] + [ds[i]];
      var _ := DeliverTo(node, ds[i]);
    }
    assert ds[..|ds|] == ds;
    var k := Key(d.view, d.sequence);
    VotesAreCommitters(nodeId, tolerance, ds, Key(0, 0));
    VotesArePreparers(nodeId, tolerance, ds, k);
    PreparersGrow(ds, d, k);
    CommitsNeedQuorum(nodeId, tolerance, ds, d);
    NodeFollowsTheDeliveries(nodeId, tolerance, ds);
    RunAppends(Fresh(nodeId, tolerance), ds, d);
    VotesAreCommitters(nodeId, tolerance, ds + [d], Key(0, 0));
    ok := DeliverTo(node, d);
  }

  lemma RunNone(n: Node)
    ensures Run(n, []) == n
  {
  }

  // ----- The printed form of a key -----

  function Digit(n: nat): char
    requires n < 10
  {
    ('0' as int + n) as char
  }

  function Digits(n: nat): (s: string)
    ensures s != [] && forall c <- s :: '0' <= c <= '9'
  {
    if n < 10 then [Digit(n)] else Digits(n / 10) + [Digit(n % 10)]
  }

  function Shown(i: int): (s: string)
    ensures forall c <- s :: c != ':'
  {
    if i < 0 then ['-'] + Digits(-i) else Digits(i)
  }

  function Printed(k: Key): string {
    Shown(k.view) + [':'] + Shown(k.sequence)
  }

  lemma {:induction false} DigitsDiffer(a: nat, b: nat)
    requires Digits(a) == Digits(b)
    ensures a == b
  {
    var s, n := Digits(a), |Digits(a)| - 1;
    assert s[n] == Digit(a % 10) == Digit(b % 10);
    if a >= 10 && b >= 10 {
      assert s[..n] == Digits(a / 10) == Digits(b / 10);
      DigitsDiffer(a / 10, b / 10);
    } else {
      assert |Digits(a)| == 1 <==> a < 10;
      assert |Digits(b)| == 1 <==> b < 10;
    }
  }

  lemma ShownSign(i: int)
    ensures Shown(i) != [] && (Shown(i)[0] == '-' <==> i < 0)
  {
    if i >= 0 {
      assert Digits(i)[0] in Digits(i);
    }
  }

  lemma ShownDiffer(i: int, j: int)
    requires Shown(i) == Shown(j)
    ensures i == j
  {
    hide Digits;
    ShownSign(i);
    ShownSign(j);
    if i < 0 {
      assert Shown(i)[1..] == Digits(-i) && Shown(j)[1..] == Digits(-j);
      DigitsDiffer(-i, -j);
    } else {
      DigitsDiffer(i, j);
    }
  }

  lemma ColonsMeet(a: string, b: string, c: string, d: string)
    requires (forall x <- a :: x != ':') && (forall x <- b :: x != ':')
    requires a + [':'] + c == b + [':'] + d
    ensures |a| <= |b|
  {
    var s := a + [':'] + c;
    forall i | 0 <= i < |a| ensures s[i] != ':' {
      assert a[i] in a;
    }
    assert s[|b|] == ':';
  }

  /** Different pairs of view and sequence print as different keys. */
  lemma KeysPrintApart(k: Key, l: Key)
    requires Printed(k) == Printed(l)
    ensures k == l
  {
    hide Shown;
    var s, n := Printed(k), |Shown(k.view)|;
    ColonsMeet(Shown(k.view), Shown(l.view), Shown(k.sequence), Shown(l.sequence));
    ColonsMeet(Shown(l.view), Shown(k.view), Shown(l.sequence), Shown(k.sequence));
    assert s[..n] == Shown(k.view) && s[n + 1..] == Shown(k.sequence);
    assert s[..n] == Shown(l.view) && s[n + 1..] == Shown(l.sequence);
    ShownDiffer(k.view, l.view);
    ShownDiffer(k.sequence, l.sequence);
  }
}
