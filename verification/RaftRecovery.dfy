/** What reading the write-ahead log after a crash yields. */
module RaftRecovery {
  import opened Options
  import opened Words
  import opened RaftTypes
  import opened RaftPublish
  import opened RaftNode
  import opened RaftPipeline
  import opened RaftSafety

  // ---------------------------------------------------------------- reading

  /** Reading the WAL from a snapshot on: an entry replaces everything read from its index on, a gap is an error. */
  function ReadAll(wal: seq<Entry>, start: u64): Option<seq<Entry>> {
    if wal == [] then Some([])
    else
      var e := wal[|wal| - 1];
      match ReadAll(wal[..|wal| - 1], start)
      case None => None
      case Some(ents) =>
        if e.index <= start then Some(ents)
        else if e.index - start - 1 > |ents| then None
        else Some(ents[..e.index - start - 1] + [e])
  }

  /** What is read has consecutive indexes, and its last one is the last index that the node starts with. */
  lemma {:induction false} ReadIndexes(wal: seq<Entry>, start: u64)
    ensures ReadAll(wal, start).Some? ==>
              var ents := ReadAll(wal, start).value;
              && (forall i :: 0 <= i < |ents| ==> ents[i].index == start + 1 + i)
              && LastSaved(wal, start) == if ents == [] then 0 else start + |ents|
  {
    if wal != [] {
      ReadIndexes(wal[..|wal| - 1], start);
    }
  }

  /** An entry is in the WAL and nothing written later replaces it. */
  ghost predicate Survives(wal: seq<Entry>, e: Entry) {
    exists p :: 0 <= p < |wal| && wal[p] == e && forall q :: p < q < |wal| ==> wal[q].index > e.index
  }

  /** What survives is read, at its place. */
  lemma {:induction false} SurvivorIsRead(wal: seq<Entry>, start: u64, e: Entry)
    requires Survives(wal, e) && e.index > start && ReadAll(wal, start).Some?
    ensures var ents := ReadAll(wal, start).value;
            e.index - start - 1 < |ents| && ents[e.index - start - 1] == e
  {
    var n := |wal| - 1;
    var p :| 0 <= p < |wal| && wal[p] == e && forall q :: p < q < |wal| ==> wal[q].index > e.index;
    if p < n {
      assert wal[..n][p] == e && forall q :: p < q < n ==> wal[..n][q] == wal[q];
      assert Survives(wal[..n], e);
      SurvivorIsRead(wal[..n], start, e);
    }
  }

  lemma SurvivesMore(wal: seq<Entry>, more: seq<Entry>, e: Entry)
    requires Survives(wal, e) && forall x :: x in more ==> x.index > e.index
    ensures Survives(wal + more, e)
  {
    var p :| 0 <= p < |wal| && wal[p] == e && forall q :: p < q < |wal| ==> wal[q].index > e.index;
    var all := wal + more;
    forall q | p < q < |all|
      ensures all[q].index > e.index
    {
      if q >= |wal| {
        assert all[q] == more[q - |wal|];
      }
    }
    assert all[p] == e;
  }

  // ---------------------------------------------------------------- published entries are read back

  /** New entries go behind everything published. */
  ghost predicate Behind(s: State, ents: seq<Entry>) {
    forall e, k :: e in ents && k in s.published ==> k < e.index
  }

  /** What raft promises of its log: committed entries are in the WAL when they are handed over, and nothing
      that has been handed over is overwritten. */
  ghost predicate NoOverwrite(c: Config, s: State, a: Action) {
    match a
    case Arrive(rd) =>
      && Behind(s, rd.entries)
      && forall k :: After(s.node, rd) <= k < rd.committed.hi && k < |c.log| ==>
           Survives(s.node.wal + rd.entries, c.log[k])
    case TornSave(ents) => Behind(s, ents)
    case _ => true
  }

  ghost predicate AllSurvive(wal: seq<Entry>, ents: seq<Entry>) {
    forall e :: e in ents ==> Survives(wal, e)
  }

  /** Published entries survive in the WAL, and so does whatever is on its way. */
  ghost predicate Kept(c: Config, s: State) {
    && (forall k :: k in s.published ==> 1 <= k <= |c.log| && Survives(s.node.wal, c.log[k - 1]))
    && match s.loop
       case Publishing(todo) => AllSurvive(s.node.wal, todo)
       case ToNil(todo) => AllSurvive(s.node.wal, todo)
       case ToMark(rd) => CommittedKept(c, s.node, rd)
       case ToFile(rd) => CommittedKept(c, s.node, rd)
       case ToSignal(rd) => CommittedKept(c, s.node, rd)
       case _ => true
  }

  ghost predicate CommittedKept(c: Config, n: Node, rd: Ready) {
    forall k :: After(n, rd) <= k < rd.committed.hi && k < |c.log| ==> Survives(n.wal, c.log[k])
  }

  /** The batch that a Ready leads to consists of the committed entries behind the applied index. */
  lemma BeginKept(c: Config, n: Node, rd: Ready)
    requires IsLog(c.log) && n.applied <= |c.log|
    requires rd.committed.lo <= rd.committed.hi <= |c.log| && rd.committed.lo <= n.applied
    requires forall k :: n.applied <= k < rd.committed.hi ==> Survives(n.wal, c.log[k])
    ensures Begin(c, n.applied, rd).Publishing? && AllSurvive(n.wal, Begin(c, n.applied, rd).todo)
  {
    BatchSlice(n.applied, c.log, rd.committed);
    var todo := Begin(c, n.applied, rd).todo;
    assert forall i :: 0 <= i < |todo| ==> todo[i] == c.log[n.applied + i];
  }

  /** The published entries outlive a save. */
  lemma SaveKept(c: Config, s: State, ents: seq<Entry>)
    requires IsLog(c.log) && Kept(c, s) && Behind(s, ents)
    ensures forall k :: k in s.published ==> 1 <= k <= |c.log| && Survives(s.node.wal + ents, c.log[k - 1])
  {
    forall k | k in s.published
      ensures Survives(s.node.wal + ents, c.log[k - 1])
    {
      SurvivesMore(s.node.wal, ents, c.log[k - 1]);
    }
  }

  lemma ArriveKept(c: Config, s: State, rd: Ready, s': State)
    requires IsLog(c.log) && DiskInv(c, s) && Kept(c, s) && Arrives(c, s, rd, s') && NoOverwrite(c, s, Arrive(rd))
    ensures Kept(c, s')
  {
    SaveKept(c, s, rd.entries);
    if rd.snap == Nothing {
      BeginKept(c, s'.node, rd);
    }
  }

  lemma SignalKept(c: Config, s: State, s': State)
    requires IsLog(c.log) && LoopOk(c, s) && Kept(c, s) && Signals(c, s, s')
    ensures Kept(c, s')
  {
    BeginKept(c, s'.node, s.loop.rd);
  }

  lemma PublishKept(c: Config, s: State, s': State)
    requires IsLog(c.log) && LoopOk(c, s) && Kept(c, s) && Publishes(s, s')
    ensures Kept(c, s')
  {
    PendingNext(c, s.node, s.loop.todo);
    assert s.loop.todo[0] in s.loop.todo;
    assert forall e :: e in s.loop.todo[1..] ==> e in s.loop.todo;
  }

  predicate Free(loop: Loop) {
    loop == Down || loop == ToBootNil || loop == Waiting || loop == Halted || loop == ToSnapshot
    || loop.ToMarkOwn? || loop.ToFileOwn?
  }

  /** A step that saves and publishes nothing, and leaves what is on its way alone. */
  lemma OtherKept(c: Config, s: State, s': State)
    requires Kept(c, s) && s'.node.wal == s.node.wal && s'.published == s.published
    requires Free(s'.loop) || (s'.loop == s.loop && s'.node.applied == s.node.applied) ||
             Marks(s, s') || Files(s, s') || SendsNil(s, s')
    ensures Kept(c, s')
  {
  }

  lemma KeptStep(c: Config, s: State, a: Action, s': State)
    requires IsLog(c.log) && DiskInv(c, s) && Kept(c, s) && Step(c, s, a, s') && NoOverwrite(c, s, a)
    ensures Kept(c, s')
  {
    match a {
      case Arrive(rd) => ArriveKept(c, s, rd, s');
      case TornSave(ents) => SaveKept(c, s, ents);
      case Signal => SignalKept(c, s, s');
      case Publish => PublishKept(c, s, s');
      case Mark => OtherKept(c, s, s');
      case File => OtherKept(c, s, s');
      case SendNil => OtherKept(c, s, s');
      case Consume => OtherKept(c, s, s');
      case _ => OtherKept(c, s, s');
    }
  }

  lemma {:induction false} KeptRun(c: Config, run: seq<State>, acts: seq<Action>, i: nat)
    requires IsLog(c.log) && Run(c, run, acts) && i < |run|
    requires forall j :: 0 <= j < i ==> NoOverwrite(c, run[j], acts[j])
    ensures Kept(c, run[i])
  {
    if i == 0 {
      assert run[0].published == {};
    } else {
      KeptRun(c, run, acts, i - 1);
      RunInv(c, run, acts, i - 1);
      assert StepAt(c, run, acts, i - 1);
      KeptStep(c, run[i - 1], acts[i - 1], run[i]);
    }
  }

  /** At every crash point, over any number of restarts, reading the WAL from the newest snapshot file yields every
      published entry behind it, at its place. */
  lemma PublishedIsRead(c: Config, run: seq<State>, acts: seq<Action>, i: nat, k: u64)
    requires IsLog(c.log) && Run(c, run, acts) && i < |run|
    requires forall j :: 0 <= j < i ==> NoOverwrite(c, run[j], acts[j])
    requires var n := run[i].node; k in run[i].published && k > Start(n.snaps) && ReadAll(n.wal, Start(n.snaps)).Some?
    ensures var ents := ReadAll(run[i].node.wal, Start(run[i].node.snaps)).value;
            1 <= k <= |c.log| && k - Start(run[i].node.snaps) - 1 < |ents|
            && ents[k - Start(run[i].node.snaps) - 1] == c.log[k - 1]
  {
    KeptRun(c, run, acts, i);
    SurvivorIsRead(run[i].node.wal, Start(run[i].node.snaps), c.log[k - 1]);
  }

  // ---------------------------------------------------------------- when reading fails

  /** The index up to which reading yields entries. */
  function ReadEnd(wal: seq<Entry>, start: u64): int
    requires ReadAll(wal, start).Some?
  {
    start + |ReadAll(wal, start).value|
  }

  /** A later start makes reading no harder. */
  lemma {:induction false} ReadLater(wal: seq<Entry>, start: u64, later: u64)
    requires start <= later && ReadAll(wal, start).Some?
    ensures ReadAll(wal, later).Some? && ReadEnd(wal, later) >= ReadEnd(wal, start)
  {
    if wal != [] {
      ReadLater(wal[..|wal| - 1], start, later);
    }
  }

  lemma ReadLast(wal: seq<Entry>, start: u64, e: Entry)
    ensures ReadAll(wal + [e], start).Some? <==>
            ReadAll(wal, start).Some? && e.index <= ReadEnd(wal, start) + 1
    ensures ReadAll(wal + [e], start).Some? && e.index > start ==> ReadEnd(wal + [e], start) == e.index
    ensures ReadAll(wal + [e], start).Some? && e.index <= start ==> ReadEnd(wal + [e], start) == ReadEnd(wal, start)
  {
    assert (wal + [e])[..|wal|] == wal;
  }

  /** After saving consecutive entries the WAL can be read exactly if they join up with what could be read before. */
  lemma {:induction false} SaveReadsIff(wal: seq<Entry>, start: u64, ents: seq<Entry>)
    requires ReadAll(wal, start).Some? && Contiguous(ents)
    ensures ReadAll(wal + ents, start).Some? <==> ents == [] || ents[0].index <= ReadEnd(wal, start) + 1
    ensures ReadAll(wal + ents, start).Some? && ents != [] && ents[|ents| - 1].index > start ==>
              ReadEnd(wal + ents, start) == ents[|ents| - 1].index
    ensures ReadAll(wal + ents, start).Some? && ents != [] && ents[|ents| - 1].index <= start ==>
              ReadEnd(wal + ents, start) == ReadEnd(wal, start)
  {
    if ents == [] {
      assert wal + ents == wal;
    } else {
      var n := |ents| - 1;
      var before, e := ents[..n], ents[n];
      assert forall i :: 0 <= i < n ==> before[i] == ents[i];
      SaveReadsIff(wal, start, before);
      assert wal + ents == (wal + before) + [e];
      ReadLast(wal + before, start, e);
      if n > 0 {
        assert before[n - 1].index + 1 == e.index;
      }
    }
  }

  /** Every save consists of consecutive entries that join up with what can be read. */
  ghost predicate JoinsUp(s: State, ents: seq<Entry>) {
    var start := Start(s.node.snaps);
    && Contiguous(ents)
    && (ents != [] && ReadAll(s.node.wal, start).Some? ==> ents[0].index <= ReadEnd(s.node.wal, start) + 1)
  }

  ghost predicate SaveJoinsUp(s: State, a: Action) {
    match a
    case Arrive(rd) => JoinsUp(s, rd.entries)
    case TornSave(ents) => JoinsUp(s, ents)
    case _ => true
  }

  ghost predicate Readable(n: Node) {
    ReadAll(n.wal, Start(n.snaps)).Some?
  }

  lemma FileReadable(n: Node, i: u64, data: Store)
    requires Readable(n)
    ensures Readable(n.(snaps := n.snaps[i := data]))
  {
    StartGrows(n.snaps, i, data);
    ReadLater(n.wal, Start(n.snaps), Start(n.snaps[i := data]));
  }

  lemma ReadableStep(c: Config, s: State, a: Action, s': State)
    requires Readable(s.node) && Step(c, s, a, s')
    ensures SaveJoinsUp(s, a) ==> Readable(s'.node)
  {
    var n := s.node;
    match a {
      case Arrive(rd) =>
        if JoinsUp(s, rd.entries) {
          SaveReadsIff(n.wal, Start(n.snaps), rd.entries);
        }
      case TornSave(ents) =>
        if JoinsUp(s, ents) {
          SaveReadsIff(n.wal, Start(n.snaps), ents);
        }
      case File => FileReadable(n, s.loop.rd.snap.index, s.loop.rd.snap.data);
      case FileOwn => FileReadable(n, n.applied, s.loop.data);
      case _ => assert s'.node.wal == n.wal && s'.node.snaps == n.snaps;
    }
  }

  /** If all saves join up, the WAL can be read at every crash point, from the newest snapshot file on. */
  lemma {:induction false} AlwaysReadable(c: Config, run: seq<State>, acts: seq<Action>, i: nat)
    requires Run(c, run, acts) && i < |run|
    requires forall j :: 0 <= j < i ==> SaveJoinsUp(run[j], acts[j])
    ensures Readable(run[i].node)
  {
    if i > 0 {
      AlwaysReadable(c, run, acts, i - 1);
      assert StepAt(c, run, acts, i - 1);
      ReadableStep(c, run[i - 1], acts[i - 1], run[i]);
    }
  }

  /** A Ready with a received snapshot has its entries saved before the snapshot. A crash in between leaves a WAL that
      cannot be read, exactly if there are such entries and the snapshot is ahead of what could be read. */
  lemma SavedBeforeSnapshot(c: Config, run: seq<State>, acts: seq<Action>, i: nat)
    requires Run(c, run, acts) && i < |acts| && acts[i].Arrive? && acts[i].rd.snap.Received?
    requires forall j :: 0 <= j < i ==> SaveJoinsUp(run[j], acts[j])
    requires var rd := acts[i].rd;
             Contiguous(rd.entries) && (rd.entries != [] ==> rd.entries[0].index == rd.snap.index + 1)
    ensures Readable(run[i].node)
    ensures Readable(run[i + 1].node) <==>
            acts[i].rd.entries == [] ||
            acts[i].rd.snap.index <= ReadEnd(run[i].node.wal, Start(run[i].node.snaps))
  {
    AlwaysReadable(c, run, acts, i);
    assert StepAt(c, run, acts, i);
    SaveReadsIff(run[i].node.wal, Start(run[i].node.snaps), acts[i].rd.entries);
  }

  // ---------------------------------------------------------------- a whole Ready

  lemma {:induction false} SavedSurvives(wal: seq<Entry>, ents: seq<Entry>, i: nat)
    requires Contiguous(ents) && i < |ents|
    ensures Survives(wal + ents, ents[i])
  {
    assert (wal + ents)[|wal| + i] == ents[i];
    forall q | |wal| + i < q < |wal + ents|
      ensures (wal + ents)[q].index > ents[i].index
    {
      assert (wal + ents)[q] == ents[q - |wal|];
    }
  }

  lemma StartNeverFalls(n: Node, rd: Batch, budget: nat, data: Store, snapCount: u64, catchUp: u64)
    requires n.Ordered() && rd.Valid()
    ensures Start(Handled(n, rd, budget, data, snapCount, catchUp).0.snaps) >= Start(n.snaps)
  {
    var m := Handled(n, rd, budget, data, snapCount, catchUp).0;
    if n.snaps.Keys != {} {
      var k := Start(n.snaps);
      var a := ReadyDisk(n, rd, budget, data, snapCount, catchUp, k);
      assert k in m.snaps.Keys;
    }
  }

  /** After a Ready whose entries are saved and join up, however it ends, a restart reads them back from the newest
      snapshot file on, at their places; and a received snapshot that was written is there. */
  lemma ReadyIsRead(n: Node, rd: Batch, budget: nat, data: Store, snapCount: u64, catchUp: u64, i: nat)
    requires n.Ordered() && rd.Valid() && rd.saved && Contiguous(rd.entries) && i < |rd.entries|
    requires Readable(n) && rd.entries[0].index <= ReadEnd(n.wal, Start(n.snaps)) + 1
    ensures var m := Handled(n, rd, budget, data, snapCount, catchUp).0;
            var start := Start(m.snaps);
            && Readable(m)
            && (rd.entries[i].index > start ==>
                  var ents := ReadAll(m.wal, start).value;
                  rd.entries[i].index - start - 1 < |ents| && ents[rd.entries[i].index - start - 1] == rd.entries[i])
            && (rd.snap.Some? && rd.received.mark && rd.received.file ==>
                  rd.snap.value.0 in m.snaps && m.snaps[rd.snap.value.0] == rd.snap.value.1)
  {
    var m := Handled(n, rd, budget, data, snapCount, catchUp).0;
    var a := ReadyDisk(n, rd, budget, data, snapCount, catchUp, if rd.snap.Some? then rd.snap.value.0 else 0);
    StartNeverFalls(n, rd, budget, data, snapCount, catchUp);
    SaveReadsIff(n.wal, Start(n.snaps), rd.entries);
    ReadLater(m.wal, Start(n.snaps), Start(m.snaps));
    SavedSurvives(n.wal, rd.entries, i);
    if rd.entries[i].index > Start(m.snaps) {
      SurvivorIsRead(m.wal, Start(m.snaps), rd.entries[i]);
    }
  }
}
