/** The steps of the machine add up to the methods of the node: a Ready from its arrival to its end. */
module RaftReady {
  import opened Options
  import opened RaftTypes
  import opened RaftPublish
  import opened RaftNode
  import opened RaftPipeline
  import opened RaftSafety
  import K = KvStore

  /** A round of the publish loop, with the nil that may follow it, is what the node's own method does. */
  lemma PublishRefines(s: State, s': State, budget: nat)
    requires Publishes(s, s') && budget >= 2
    ensures var p := PublishOne(s.node.self, s.node.last, s.node.applied, s.loop.todo[0], budget);
            && (s'.loop == Halted <==> !p.ok)
            && (p.ok ==> s'.node.(sent := s'.node.sent + if s'.loop.ToNil? then [Nil] else []) == s.node.Advanced(p))
  {
    var e := s.loop.todo[0];
    Regroup(s.node.sent, Head(e), [Nil]);
    assert s'.node.sent + [] == s'.node.sent;
  }

  /** Deciding, taking, recording and filing the node's own snapshot adds up to maybeTriggerSnapshot. */
  lemma OwnSnapshotRefines(c: Config, s: State, s1: State, s2: State, s3: State, s4: State, data: Store)
    requires EndsPublishing(c, s, s1)
    requires s1.loop == ToSnapshot ==> TakesSnapshot(s1, data, s2) && MarksOwn(s2, s3) && FilesOwn(c, s3, s4)
    ensures var (n, t) := Triggered(s.node, data, Writes(true, true), c.snapCount, c.catchUp);
            if s1.loop == ToSnapshot then s4.node == n && t != NotNeeded && s4.panicked == (s.panicked || t == Panicked)
            else s1.node == n && t == NotNeeded
  {
  }

  /** A step of the consumer is one round of readCommits: the same map, and it dies or stops reading alike. */
  lemma ConsumeRefines(s: State, s': State)
    requires Consumes(s, s')
    ensures var r := K.Consume(s.kv, [Event(s.node, s.consumer.m)]);
            && s'.node == s.node && s'.kv == r.kv
            && (r.end == K.Died <==> s'.loop == Down)
            && (r.end == K.CaughtUp ==> if s.returned == NotYet then s'.returned == With(s.kv) else s'.consumer == Gone)
            && (r.end != K.CaughtUp ==> s'.returned == s.returned && s'.consumer != Gone)
  {
    var e := Event(s.node, s.consumer.m);
    assert [e][1..] == [];
  }

  /** A Ready of the machine as the node sees it; all writes succeed. */
  function AsBatch(c: Config, rd: Ready): Batch {
    Batch(rd.entries, if rd.snap.Received? then Some((rd.snap.index, rd.snap.data)) else None, rd.committed.Of(c.log),
          true, Writes(true, true), Writes(true, true))
  }

  /** With a last snapshot, if one is due, the node ends up as `end`. */
  predicate Finishes(c: Config, n: Node, data: Store, end: Node) {
    var (m, t) := Triggered(n, data, Writes(true, true), c.snapCount, c.catchUp);
    m == end && t != Panicked
  }

  predicate PublishesRest(c: Config, n: Node, todo: seq<Entry>, budget: nat, data: Store, end: Node) {
    var p := PublishEntries(n.self, n.last, n.applied, todo, budget);
    p.ok && Finishes(c, n.Advanced(p), data, end)
  }

  /** With the snapshot of a Ready installed. */
  predicate Begins(c: Config, n: Node, rd: Ready, budget: nat, data: Store, end: Node) {
    match EntriesToApply(n.applied, rd.committed.Of(c.log))
    case Fatal => false
    case Suffix(todo) => PublishesRest(c, n, todo, budget, data, end)
  }

  predicate Installs(c: Config, n: Node, rd: Ready, budget: nat, data: Store, end: Node) {
    rd.snap.Received? && rd.snap.index > n.applied && Begins(c, n.Installed(rd.snap.index), rd, budget, data, end)
  }

  /** What is left to do of a Ready makes the node `end`. */
  predicate Leads(c: Config, s: State, budget: nat, data: Store, end: Node) {
    var n := s.node;
    match s.loop
    case Waiting => n == end
    case ToBootNil => n.(sent := n.sent + [Nil]) == end
    case ToMark(rd) =>
      && rd.snap.Received?
      && Installs(c, n.Snapped(rd.snap.index, rd.snap.data, Writes(true, true)), rd, budget, data, end)
    case ToFile(rd) =>
      && rd.snap.Received?
      && Installs(c, n.(snaps := n.snaps[rd.snap.index := rd.snap.data]), rd, budget, data, end)
    case ToSignal(rd) => Installs(c, n, rd, budget, data, end)
    case Publishing(todo) => PublishesRest(c, n, todo, budget, data, end)
    case ToNil(todo) => PublishesRest(c, n.(sent := n.sent + [Nil]), todo, budget, data, end)
    case ToSnapshot => NeedsSnapshot(n.applied, n.snapshotIndex, c.snapCount) && Finishes(c, n, data, end)
    case ToMarkOwn(d) =>
      d == data && NeedsSnapshot(n.applied, n.snapshotIndex, c.snapCount) && Finishes(c, n, data, end)
    case ToFileOwn(d) => d == data && FilesLast(c, n, data, end)
    case _ => false
  }

  predicate FilesLast(c: Config, n: Node, data: Store, end: Node) {
    var compact := CompactIndex(n.applied, c.catchUp);
    && NeedsSnapshot(n.applied, n.snapshotIndex, c.snapCount) && compact > n.offset
    && n.(snaps := n.snaps[n.applied := data], offset := compact, snapshotIndex := n.applied) == end
  }

  lemma LeadsPublish(c: Config, s: State, s': State, budget: nat, data: Store, end: Node) returns (more: nat)
    requires Publishes(s, s') && Leads(c, s', budget, data, end)
    ensures Leads(c, s, more, data, end)
  {
    var n, e, rest := s.node, s.loop.todo[0], s.loop.todo[1..];
    more := budget + |Emit(e, n.last)|;
    PublishRefines(s, s', more + 2);
    var one := PublishOne(n.self, n.last, n.applied, e, more);
    var p := PublishEntries(n.self, n.last, e.index, rest, budget);
    Regroup(n.sent, one.sent, p.sent);
    assert PublishEntries(n.self, n.last, n.applied, s.loop.todo, more) == p.(sent := one.sent + p.sent);
    assert s'.node.sent + [] == s'.node.sent;
  }

  lemma LeadsReceive(c: Config, s: State, s': State, budget: nat, data: Store, end: Node)
    requires Marks(s, s') || Files(s, s') || (Signals(c, s, s') && s'.loop != Down)
    requires Leads(c, s', budget, data, end)
    ensures Leads(c, s, budget, data, end)
  {
  }

  /** The node's own snapshot. */
  lemma LeadsOwn(c: Config, s: State, a: Action, s': State, budget: nat, data: Store, end: Node)
    returns (taken: Store)
    requires Step(c, s, a, s') && (a == EndPublish || a.TakeSnapshot? || a == MarkOwn || a == FileOwn)
    requires s'.loop != Down && Leads(c, s', budget, data, end) && IndexInv(c, s)
    ensures Leads(c, s, budget, taken, end)
  {
    taken := if a == FileOwn then s.loop.data else data;
    var p := PublishEntries(s.node.self, s.node.last, s.node.applied, [], budget);
    assert s.node.sent + [] == s.node.sent;
  }

  lemma LeadsStep(c: Config, s: State, a: Action, s': State, budget: nat, data: Store, end: Node)
    returns (more: nat, taken: Store)
    requires Step(c, s, a, s') && a != Restart && s.loop != Waiting && s'.loop != Down && IndexInv(c, s)
    requires Leads(c, s', budget, data, end)
    ensures Leads(c, s, more, taken, end)
  {
    more, taken := budget, data;
    match a {
      case Mark => LeadsReceive(c, s, s', budget, data, end);
      case File => LeadsReceive(c, s, s', budget, data, end);
      case Signal => LeadsReceive(c, s, s', budget, data, end);
      case Publish => more := LeadsPublish(c, s, s', budget, data, end);
      case SendNil =>
      case Consume =>
      case BootNil =>
      case _ => taken := LeadsOwn(c, s, a, s', budget, data, end);
    }
  }

  lemma {:induction false} LeadsBack(c: Config, run: seq<State>, acts: seq<Action>, k: nat, j: nat)
    returns (budget: nat, data: Store)
    requires IsLog(c.log) && Run(c, run, acts) && k <= j <= |acts| && run[j].loop == Waiting
    requires forall x :: k <= x < j ==> acts[x] != Restart && run[x].loop != Waiting
    ensures run[k].loop != Down && Leads(c, run[k], budget, data, run[j].node)
    decreases j - k
  {
    if k == j {
      budget, data := 0, map[];
    } else {
      budget, data := LeadsBack(c, run, acts, k + 1, j);
      StillUp(c, run, acts, k);
      RunInv(c, run, acts, k);
      assert StepAt(c, run, acts, k);
      budget, data := LeadsStep(c, run[k], acts[k], run[k + 1], budget, data, run[j].node);
    }
  }

  lemma ArriveLeads(c: Config, s: State, rd: Ready, s': State, budget: nat, data: Store, end: Node)
    requires Arrives(c, s, rd, s') && Leads(c, s', budget, data, end)
    ensures Handled(s.node, AsBatch(c, rd), budget, data, c.snapCount, c.catchUp) == (end, GoesOn)
  {
  }

  /** From the arrival of a Ready to the next time the loop waits, whatever the consumer does meanwhile, the steps of
      the machine do to the node what the Ready branch of serveChannels does. */
  lemma ReadyRefines(c: Config, run: seq<State>, acts: seq<Action>, i: nat, j: nat)
    returns (budget: nat, data: Store)
    requires IsLog(c.log) && Run(c, run, acts) && i < j <= |acts| && acts[i].Arrive? && run[j].loop == Waiting
    requires forall x :: i < x < j ==> acts[x] != Restart && run[x].loop != Waiting
    ensures Handled(run[i].node, AsBatch(c, acts[i].rd), budget, data, c.snapCount, c.catchUp) ==
            (run[j].node, GoesOn)
  {
    budget, data := LeadsBack(c, run, acts, i + 1, j);
    assert StepAt(c, run, acts, i);
    ArriveLeads(c, run[i], acts[i].rd, run[i + 1], budget, data, run[j].node);
  }
}
