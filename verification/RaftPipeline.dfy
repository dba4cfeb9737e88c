/** The raft loop, the consumer and the disk as one state machine: every interleaving, with a crash possible
    after any step. The raft library is the environment: it delivers batches of one committed log. */
module RaftPipeline {
  import opened Words
  import opened RaftTypes
  import opened RaftPublish
  import opened RaftNode
  import K = KvStore

  datatype Config = Config(self: u64, log: seq<Entry>, snapCount: u64, catchUp: u64)

  datatype Incoming = Nothing | Received(index: u64, data: Store)

  /** What the raft library hands over in one Ready: entries to save, perhaps a snapshot, committed entries. */
  datatype Ready = Ready(entries: seq<Entry>, snap: Incoming, committed: Cut)

  /** Where the raft loop stands. `To...` names the next thing it does that others can see. */
  datatype Loop =
    | Down
    | ToBootNil
    | Waiting
    | ToMark(rd: Ready) | ToFile(rd: Ready) | ToSignal(rd: Ready)
    | Publishing(todo: seq<Entry>) | ToNil(todo: seq<Entry>)
    | ToSnapshot | ToMarkOwn(data: Store) | ToFileOwn(data: Store)
    | Halted

  /** commitC is unbuffered: the consumer either waits for a message or holds one it has not applied yet. */
  datatype Consumer = Idle | Holding(m: Message) | Gone

  datatype Returned = NotYet | With(kv: Store)

  datatype Compaction = Compaction(previous: u64, applied: u64, index: u64)

  /** `returned` is the map with which newKVStore returned; `published` and `compactions` are histories. */
  datatype State = State(
    node: Node, loop: Loop, consumer: Consumer, kv: Store, returned: Returned,
    panicked: bool, compactions: seq<Compaction>, published: set<u64>)

  datatype Action =
    | Arrive(rd: Ready) | TornSave(entries: seq<Entry>)
    | Mark | File | Signal
    | Publish | SendNil | EndPublish
    | TakeSnapshot(data: Store) | MarkOwn | FileOwn
    | Consume | BootNil | Stop | Crash | Restart

  /** The applied index once the snapshot of a Ready is installed. */
  function After(n: Node, rd: Ready): u64 {
    if rd.snap.Received? then rd.snap.index else n.applied
  }

  /** What the raft library guarantees of a Ready: a snapshot is new and holds the right map, committed entries
      join up with what is applied, and nothing is committed before it was handed over for saving. */
  ghost predicate ReadyOk(c: Config, n: Node, rd: Ready) {
    && rd.committed.lo <= rd.committed.hi <= |c.log|
    && (rd.snap.Received? ==> n.applied < rd.snap.index <= |c.log| && rd.snap.data == Fold(c.log[..rd.snap.index]))
    && rd.committed.lo <= After(n, rd)
    && (forall i :: After(n, rd) <= i < rd.committed.hi ==> c.log[i] in n.wal)
  }

  function Begin(c: Config, applied: u64, rd: Ready): Loop {
    match EntriesToApply(applied, rd.committed.Of(c.log))
    case Fatal => Down
    case Suffix(ents) => Publishing(ents)
  }

  /** A new process on the disk that the last one left behind. */
  ghost function Boot(s: State): State {
    var n := s.node.Booted();
    State(n, if n.last == 0 then ToBootNil else Waiting, Idle, map[], NotYet,
          s.panicked, [], s.published)
  }

  /** A node on an empty disk. */
  ghost predicate Init(c: Config, s: State) {
    s == State(Node(c.self, 0, 0, 0, 0, [], {0}, map[], []), ToBootNil, Idle, map[], NotYet, false, [], {})
  }

  // ---------------------------------------------------------------- the steps

  /** wal.Save of the new entries. */
  ghost predicate Arrives(c: Config, s: State, rd: Ready, s': State) {
    var n := s.node.(wal := s.node.wal + rd.entries);
    && s.loop == Waiting && ReadyOk(c, n, rd)
    && s' == s.(node := n, loop := if rd.snap.Received? then ToMark(rd) else Begin(c, n.applied, rd))
  }

  /** The first write of saveSnap for a received snapshot: the WAL record. */
  ghost predicate Marks(s: State, s': State) {
    && s.loop.ToMark? && s.loop.rd.snap.Received?
    && s' == s.(node := s.node.(marks := s.node.marks + {s.loop.rd.snap.index}), loop := ToFile(s.loop.rd))
  }

  /** The second write: the snapshot file. */
  ghost predicate Files(s: State, s': State) {
    && s.loop.ToFile? && s.loop.rd.snap.Received?
    && s' == s.(node := s.node.(snaps := s.node.snaps[s.loop.rd.snap.index := s.loop.rd.snap.data]),
                loop := ToSignal(s.loop.rd))
  }

  /** publishSnapshot: nil goes to the consumer, then the indexes jump. A stale snapshot is fatal. */
  ghost predicate Signals(c: Config, s: State, s': State) {
    && s.loop.ToSignal? && s.loop.rd.snap.Received? && s.consumer == Idle
    && s' == if s.loop.rd.snap.index <= s.node.applied then s.(loop := Down)
             else s.(node := s.node.Installed(s.loop.rd.snap.index), consumer := Holding(Nil),
                     loop := Begin(c, s.loop.rd.snap.index, s.loop.rd))
  }

  /** One round of publishEntries, up to the nil that may follow. */
  ghost predicate Publishes(s: State, s': State) {
    && s.loop.Publishing? && s.loop.todo != []
    && var e := s.loop.todo[0];
    if e.body == Conf(RemoveNode, s.node.self) then s' == s.(loop := Halted)
    else
      && (Carries(e) ==> s.consumer == Idle)
      && s' == s.(node := s.node.(applied := e.index, sent := s.node.sent + Head(e)),
                  consumer := if Carries(e) then Holding(Data(e.body.payload)) else s.consumer,
                  published := s.published + {e.index},
                  loop := if e.index == s.node.last then ToNil(s.loop.todo[1..]) else Publishing(s.loop.todo[1..]))
  }

  /** The nil that ends the replay. */
  ghost predicate SendsNil(s: State, s': State) {
    && s.loop.ToNil? && s.consumer == Idle
    && s' == s.(node := s.node.(sent := s.node.sent + [Nil]), consumer := Holding(Nil),
                loop := Publishing(s.loop.todo))
  }

  ghost predicate EndsPublishing(c: Config, s: State, s': State) {
    && s.loop == Publishing([])
    && var needed := NeedsSnapshot(s.node.applied, s.node.snapshotIndex, c.snapCount);
    s' == s.(loop := if needed then ToSnapshot else Waiting)
  }

  /** getSnapshot, whatever the consumer is doing. */
  ghost predicate TakesSnapshot(s: State, data: Store, s': State) {
    && s.loop == ToSnapshot && K.JsonImage(s.kv, data)
    && s' == s.(loop := ToMarkOwn(data))
  }

  ghost predicate MarksOwn(s: State, s': State) {
    && s.loop.ToMarkOwn?
    && s' == s.(node := s.node.(marks := s.node.marks + {s.node.applied}), loop := ToFileOwn(s.loop.data))
  }

  /** The node's own snapshot file and the compaction, which panics at or before the beginning of the log. */
  ghost predicate FilesOwn(c: Config, s: State, s': State) {
    && s.loop.ToFileOwn?
    && var n := s.node.(snaps := s.node.snaps[s.node.applied := s.loop.data]);
    var compact := CompactIndex(n.applied, c.catchUp);
    s' == if compact <= n.offset then s.(node := n, loop := Down, panicked := true)
          else s.(node := n.(offset := compact, snapshotIndex := n.applied), loop := Waiting,
                  compactions := s.compactions + [Compaction(n.snapshotIndex, n.applied, compact)])
  }

  /** What the consumer makes of a message, with what it finds on disk by now. */
  ghost function Event(n: Node, m: Message): K.Received {
    match m
    case Data(p) => K.Commit(p)
    case Nil => K.Signal(if n.snaps.Keys == {} then K.NoSnapshot else K.Loaded(n.snaps[Start(n.snaps)]))
  }

  /** The consumer applies what it holds. The first readCommits returns into newKVStore, a second one would quit. */
  ghost predicate Consumes(s: State, s': State) {
    && s.consumer.Holding? && s.loop != Down
    && var e := Event(s.node, s.consumer.m);
    s' == if K.Usable(e) then s.(kv := K.Took(s.kv, e), consumer := Idle)
          else if e.Commit? then s.(loop := Down)
          else if s.returned == NotYet then s.(returned := With(s.kv), consumer := Idle)
          else s.(consumer := Gone)
  }

  /** The nil of an empty WAL. */
  ghost predicate SendsBootNil(s: State, s': State) {
    && s.loop == ToBootNil && s.consumer == Idle
    && s' == s.(node := s.node.(sent := s.node.sent + [Nil]), consumer := Holding(Nil), loop := Waiting)
  }

  /** stopc wins: in the main select or at a send. */
  ghost predicate Stops(s: State, s': State) {
    && (s.loop == Waiting || s.loop.ToNil? || (s.loop.Publishing? && s.loop.todo != [] && Carries(s.loop.todo[0])))
    && s' == s.(loop := Halted)
  }

  ghost predicate Step(c: Config, s: State, a: Action, s': State) {
    match a
    case Arrive(rd) => Arrives(c, s, rd, s')
    case TornSave(ents) => s.loop == Waiting && s' == s.(node := s.node.(wal := s.node.wal + ents), loop := Down)
    case Mark => Marks(s, s')
    case File => Files(s, s')
    case Signal => Signals(c, s, s')
    case Publish => Publishes(s, s')
    case SendNil => SendsNil(s, s')
    case EndPublish => EndsPublishing(c, s, s')
    case TakeSnapshot(data) => TakesSnapshot(s, data, s')
    case MarkOwn => MarksOwn(s, s')
    case FileOwn => FilesOwn(c, s, s')
    case Consume => Consumes(s, s')
    case BootNil => SendsBootNil(s, s')
    case Stop => Stops(s, s')
    case Crash => s.loop != Down && s' == s.(loop := Down)
    case Restart => s.loop == Down && s' == Boot(s)
  }

  ghost predicate StepAt(c: Config, run: seq<State>, acts: seq<Action>, i: nat)
    requires |run| == |acts| + 1 && i < |acts|
  {
    Step(c, run[i], acts[i], run[i + 1])
  }

  ghost predicate Run(c: Config, run: seq<State>, acts: seq<Action>) {
    && |run| == |acts| + 1
    && Init(c, run[0])
    && forall i {:trigger StepAt(c, run, acts, i)} :: 0 <= i < |acts| ==> StepAt(c, run, acts, i)
  }

  // ---------------------------------------------------------------- what is on disk

  /** Entries on their way to the consumer are those right behind the applied index, and they are in the WAL. */
  ghost predicate Pending(c: Config, n: Node, todo: seq<Entry>) {
    && n.applied + |todo| <= |c.log|
    && todo == c.log[n.applied..n.applied + |todo|]
    && forall e :: e in todo ==> e in n.wal
  }

  ghost predicate LoopOk(c: Config, s: State) {
    match s.loop
    case ToMark(rd) => rd.snap.Received? && ReadyOk(c, s.node, rd)
    case ToFile(rd) => rd.snap.Received? && ReadyOk(c, s.node, rd) && rd.snap.index in s.node.marks
    case ToSignal(rd) => rd.snap.Received? && ReadyOk(c, s.node, rd) && rd.snap.index in s.node.snaps
    case Publishing(todo) => Pending(c, s.node, todo)
    case ToNil(todo) => Pending(c, s.node, todo)
    case ToFileOwn(_) => s.node.applied in s.node.marks
    case _ => true
  }

  /** A published entry can be recovered: it is in the WAL or covered by a snapshot file. */
  ghost predicate Durable(c: Config, n: Node, published: set<u64>) {
    forall i :: i in published ==> 1 <= i <= |c.log| && (c.log[i - 1] in n.wal || i <= Start(n.snaps))
  }

  /** The loop has saved a received snapshot but not signalled it yet. */
  predicate Between(s: State) {
    s.loop.ToSignal? && s.loop.rd.snap.Received?
  }

  /** No snapshot file is ahead of the applied index, but for one that is not signalled yet. */
  ghost predicate FilesBehind(s: State) {
    forall i :: i in s.node.snaps ==> i <= s.node.applied || (Between(s) && i == s.loop.rd.snap.index)
  }

  /** Before it is signalled, the received snapshot is the newest file and the right one. */
  ghost predicate SignalReady(c: Config, s: State) {
    Between(s) ==>
      && s.node.snaps.Keys != {} && Start(s.node.snaps) == s.loop.rd.snap.index <= |c.log|
      && s.node.snaps[Start(s.node.snaps)] == Fold(c.log[..s.loop.rd.snap.index])
  }

  ghost predicate DiskInv(c: Config, s: State) {
    && s.node.self == c.self
    && s.node.Recorded() && Durable(c, s.node, s.published) && LoopOk(c, s)
    && s.node.applied <= |c.log|
    && (forall i :: i in s.node.snaps ==> i <= |c.log|)
    && (s.loop != Down ==> FilesBehind(s) && SignalReady(c, s))
  }

  // ---------------------------------------------------------------- snapshot and compaction indexes

  ghost predicate CompactionsOk(c: Config, s: State) {
    && (forall k :: 0 <= k < |s.compactions| ==>
          var m := s.compactions[k];
          m.previous < m.index <= m.applied <= s.node.snapshotIndex && m.applied - m.index == c.catchUp)
    && (forall k, l :: 0 <= k < l < |s.compactions| ==> s.compactions[k].applied <= s.compactions[l].previous)
  }

  ghost predicate IndexInv(c: Config, s: State) {
    && s.node.Ordered()
    && (s.loop == Waiting || s.loop == ToBootNil ==> s.node.applied - s.node.snapshotIndex <= c.snapCount)
    && (s.loop == ToSnapshot || s.loop.ToMarkOwn? || s.loop.ToFileOwn? ==>
          s.node.applied - s.node.snapshotIndex > c.snapCount)
    && (c.snapCount >= c.catchUp ==> !s.panicked && CompactionsOk(c, s))
  }

  // ---------------------------------------------------------------- the map

  /** The map once the message that the consumer holds is applied. */
  ghost function View(s: State): Store {
    match s.consumer
    case Holding(Data(p)) => Write(s.kv, p)
    case Holding(Nil) => if s.node.snaps.Keys == {} then s.kv else s.node.snaps[Start(s.node.snaps)]
    case _ => s.kv
  }

  ghost predicate ValidLog(log: seq<Entry>) {
    forall e :: e in log ==> K.ValidEntry(e)
  }

  /** A log of valid UTF-8 makes for valid maps, in memory and on disk. */
  ghost predicate ValidInv(c: Config, s: State) {
    ValidLog(c.log) ==>
      && K.ValidStore(s.kv)
      && (forall i :: i in s.node.snaps ==> K.ValidStore(s.node.snaps[i]))
      && (s.consumer.Holding? && s.consumer.m.Data? && s.consumer.m.payload.Put? ==>
            K.Valid(s.consumer.m.payload.key) && K.Valid(s.consumer.m.payload.value))
      && (s.loop.ToMarkOwn? || s.loop.ToFileOwn? ==> K.ValidStore(s.loop.data))
  }

  // ---------------------------------------------------------------- the end of the replay

  ghost predicate LifeInv(c: Config, s: State) {
    var n := s.node;
    s.loop != Down ==>
      && s.consumer != Gone
      && (s.loop == ToBootNil ==>
            n.last == 0 && n.applied == Start(n.snaps) && s.returned == NotYet && s.consumer == Idle)
      && (n.last > n.applied || s.loop.ToNil? ==> s.returned == NotYet)
      && (s.loop.ToNil? ==> n.applied == n.last > 0)
      && (s.consumer == Holding(Nil) && n.snaps.Keys == {} ==>
            s.returned == NotYet && n.last <= n.applied && !s.loop.ToNil?)
  }

  ghost predicate Inv(c: Config, s: State) {
    DiskInv(c, s) && IndexInv(c, s) && LifeInv(c, s) && ValidInv(c, s)
  }

  // ---------------------------------------------------------------- every step keeps the invariant

  lemma BeginOk(c: Config, n: Node, rd: Ready)
    requires IsLog(c.log) && n.applied <= |c.log|
    requires rd.committed.lo <= rd.committed.hi <= |c.log| && rd.committed.lo <= n.applied
    requires forall i :: n.applied <= i < rd.committed.hi ==> c.log[i] in n.wal
    ensures Begin(c, n.applied, rd).Publishing? && Pending(c, n, Begin(c, n.applied, rd).todo)
  {
    BatchSlice(n.applied, c.log, rd.committed);
  }

  lemma PendingNext(c: Config, n: Node, todo: seq<Entry>)
    requires IsLog(c.log) && Pending(c, n, todo) && todo != []
    ensures todo[0] == c.log[n.applied] && todo[0].index == n.applied + 1 && todo[0] in n.wal
    ensures Pending(c, n.(applied := n.applied + 1), todo[1..])
  {
    assert todo[0] == c.log[n.applied..n.applied + |todo|][0];
    assert todo[1..] == c.log[n.applied + 1..n.applied + |todo|];
  }

  lemma InitInv(c: Config, s: State)
    requires Init(c, s)
    ensures Inv(c, s)
  {
  }

  lemma ArriveDisk(c: Config, s: State, rd: Ready, s': State)
    requires IsLog(c.log) && DiskInv(c, s) && Arrives(c, s, rd, s')
    ensures DiskInv(c, s')
  {
    if rd.snap == Nothing {
      BeginOk(c, s'.node, rd);
    }
  }

  /** The received snapshot is the newest file from then on. */
  lemma ReceivedIsNewest(s: State, s': State)
    requires FilesBehind(s) && Files(s, s') && s.node.applied < s.loop.rd.snap.index
    ensures Start(s'.node.snaps) == s.loop.rd.snap.index && s'.node.snaps.Keys != {} && FilesBehind(s')
  {
    StartGrows(s.node.snaps, s.loop.rd.snap.index, s.loop.rd.snap.data);
    if s.node.snaps.Keys != {} {
      assert Start(s.node.snaps) in s.node.snaps;
    }
    assert s.loop.rd.snap.index in s'.node.snaps.Keys;
  }

  lemma FileDisk(c: Config, s: State, s': State)
    requires DiskInv(c, s) && Files(s, s')
    ensures DiskInv(c, s')
  {
    StartGrows(s.node.snaps, s.loop.rd.snap.index, s.loop.rd.snap.data);
    ReceivedIsNewest(s, s');
  }

  lemma SignalDisk(c: Config, s: State, s': State)
    requires IsLog(c.log) && DiskInv(c, s) && Signals(c, s, s')
    ensures DiskInv(c, s')
  {
    BeginOk(c, s'.node, s.loop.rd);
  }

  lemma PublishDisk(c: Config, s: State, s': State)
    requires IsLog(c.log) && DiskInv(c, s) && Publishes(s, s')
    ensures DiskInv(c, s')
  {
    PendingNext(c, s.node, s.loop.todo);
  }

  lemma FileOwnDisk(c: Config, s: State, s': State)
    requires DiskInv(c, s) && FilesOwn(c, s, s')
    ensures DiskInv(c, s')
  {
    StartGrows(s.node.snaps, s.node.applied, s.loop.data);
  }

  /** A step that touches neither files nor saved entries, and leaves nothing new on its way. */
  lemma OtherDisk(c: Config, s: State, s': State)
    requires DiskInv(c, s) && s'.published == s.published && s'.node.self == s.node.self
    requires s'.node.wal == s.node.wal && s'.node.snaps == s.node.snaps && s'.node.marks == s.node.marks
    requires s.loop != Down && s'.node.applied == s.node.applied
    requires Between(s) ==> s'.loop == s.loop || s'.loop == Down
    requires s'.loop == s.loop || s'.loop == Down || s'.loop == Waiting || s'.loop == Halted || s'.loop == ToSnapshot
             || s'.loop.ToMarkOwn? || (s.loop.ToNil? && s'.loop == Publishing(s.loop.todo))
    ensures DiskInv(c, s')
  {
  }

  lemma MarkDisk(c: Config, s: State, s': State)
    requires DiskInv(c, s) && (Marks(s, s') || MarksOwn(s, s'))
    ensures DiskInv(c, s')
  {
  }

  lemma DiskStep(c: Config, s: State, a: Action, s': State)
    requires IsLog(c.log) && DiskInv(c, s) && Step(c, s, a, s')
    ensures DiskInv(c, s')
  {
    match a {
      case Arrive(rd) => ArriveDisk(c, s, rd, s');
      case File => FileDisk(c, s, s');
      case Signal => SignalDisk(c, s, s');
      case Publish => PublishDisk(c, s, s');
      case FileOwn => FileOwnDisk(c, s, s');
      case Mark => MarkDisk(c, s, s');
      case MarkOwn => MarkDisk(c, s, s');
      case TornSave(_) =>
      case Restart =>
      case _ => OtherDisk(c, s, s');
    }
  }

  /** Compacting moves past the snapshot before and keeps the catch-up entries. */
  lemma FileOwnIndex(c: Config, s: State, s': State)
    requires IndexInv(c, s) && FilesOwn(c, s, s')
    ensures IndexInv(c, s')
  {
  }

  lemma PublishIndex(c: Config, s: State, s': State)
    requires IsLog(c.log) && LoopOk(c, s) && IndexInv(c, s) && Publishes(s, s')
    ensures IndexInv(c, s')
  {
    PendingNext(c, s.node, s.loop.todo);
  }

  lemma SameCompactions(c: Config, s: State, s': State)
    requires CompactionsOk(c, s) && s'.node.snapshotIndex >= s.node.snapshotIndex
    requires s'.compactions == s.compactions
    ensures CompactionsOk(c, s')
  {
  }

  lemma IndexStep(c: Config, s: State, a: Action, s': State)
    requires IsLog(c.log) && DiskInv(c, s) && IndexInv(c, s) && Step(c, s, a, s')
    ensures IndexInv(c, s')
  {
    match a {
      case Publish => PublishIndex(c, s, s');
      case FileOwn => FileOwnIndex(c, s, s');
      case Restart =>
      case _ =>
        if c.snapCount >= c.catchUp {
          SameCompactions(c, s, s');
        }
    }
  }

  lemma LifeStep(c: Config, s: State, a: Action, s': State)
    requires IsLog(c.log) && DiskInv(c, s) && LifeInv(c, s) && Step(c, s, a, s')
    ensures LifeInv(c, s')
  {
    match a {
      case Publish => PendingNext(c, s.node, s.loop.todo);
      case File => assert s.loop.rd.snap.index in s'.node.snaps.Keys;
      case FileOwn => assert s.node.applied in s'.node.snaps.Keys;
      case _ =>
    }
  }

  lemma ExactImage(kv: Store, data: Store)
    requires K.ValidStore(kv) && K.JsonImage(kv, data)
    ensures data == kv
  {
    K.SnapshotFaithful(kv, data);
  }

  lemma ValidPublish(c: Config, s: State, s': State)
    requires IsLog(c.log) && LoopOk(c, s) && ValidInv(c, s) && Publishes(s, s')
    ensures ValidInv(c, s')
  {
    PendingNext(c, s.node, s.loop.todo);
    assert s.loop.todo[0] in c.log;
  }

  lemma ValidFile(c: Config, s: State, s': State)
    requires LoopOk(c, s) && ValidInv(c, s) && Files(s, s')
    ensures ValidInv(c, s')
  {
    if ValidLog(c.log) {
      K.FoldValid(c.log[..s.loop.rd.snap.index]);
    }
  }

  lemma ValidConsume(c: Config, s: State, s': State)
    requires ValidInv(c, s) && Consumes(s, s')
    ensures ValidInv(c, s')
  {
    if s.consumer.m == Nil && s.node.snaps.Keys != {} {
      assert Start(s.node.snaps) in s.node.snaps;
    }
  }

  lemma ValidStep(c: Config, s: State, a: Action, s': State)
    requires IsLog(c.log) && LoopOk(c, s) && ValidInv(c, s) && Step(c, s, a, s')
    ensures ValidInv(c, s')
  {
    match a {
      case Publish => ValidPublish(c, s, s');
      case File => ValidFile(c, s, s');
      case Consume => ValidConsume(c, s, s');
      case TakeSnapshot(data) =>
        if ValidLog(c.log) {
          ExactImage(s.kv, data);
        }
      case _ =>
    }
  }

  lemma StepInv(c: Config, s: State, a: Action, s': State)
    requires IsLog(c.log) && Inv(c, s) && Step(c, s, a, s')
    ensures Inv(c, s')
  {
    DiskStep(c, s, a, s');
    IndexStep(c, s, a, s');
    LifeStep(c, s, a, s');
    ValidStep(c, s, a, s');
  }

  /** Applying the held message is what View foresees. */
  lemma ConsumeKeepsView(s: State, s': State)
    requires Consumes(s, s') && s'.loop != Down
    ensures View(s') == View(s)
  {
  }
}
