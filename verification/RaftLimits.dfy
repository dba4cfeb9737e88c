/** Runs that show where the guarantees of the pipeline end. */
module RaftLimits {
  import opened Options
  import opened Words
  import opened RaftTypes
  import opened RaftPublish
  import opened RaftNode
  import opened RaftPipeline
  import opened RaftMap
  import opened RaftQuiet
  import opened RaftRecovery
  import K = KvStore

  ghost predicate EndsIn(c: Config, run: seq<State>, acts: seq<Action>, s: State) {
    Run(c, run, acts) && run[|run| - 1] == s
  }

  lemma Extend(c: Config, run: seq<State>, acts: seq<Action>, s: State, a: Action, s': State)
    returns (run': seq<State>, acts': seq<Action>)
    requires EndsIn(c, run, acts, s) && Step(c, s, a, s')
    ensures EndsIn(c, run', acts', s') && run' == run + [s'] && acts' == acts + [a]
  {
    run', acts' := run + [s'], acts + [a];
    forall i | 0 <= i < |acts'|
      ensures StepAt(c, run', acts', i)
    {
      if i < |acts| {
        assert StepAt(c, run, acts, i);
      }
    }
  }

  /** Start on an empty disk, with the first nil on its way. */
  lemma Starting(c: Config) returns (run: seq<State>, acts: seq<Action>, s: State)
    ensures EndsIn(c, run, acts, s) && acts == [BootNil]
    ensures s == State(Node(c.self, 0, 0, 0, 0, [], {0}, map[], [Nil]),
                       Waiting, Holding(Nil), map[], NotYet, false, [], {})
  {
    var s0 := State(Node(c.self, 0, 0, 0, 0, [], {0}, map[], []), ToBootNil, Idle, map[], NotYet, false, [], {});
    s := s0.(node := s0.node.(sent := [Nil]), consumer := Holding(Nil), loop := Waiting);
    assert s0.node.sent + [Nil] == [Nil];
    run, acts := Extend(c, [s0], [], s0, BootNil, s);
  }

  /** Start on an empty disk and consume the first nil. */
  lemma Started(c: Config) returns (run: seq<State>, acts: seq<Action>, s: State)
    ensures EndsIn(c, run, acts, s) && acts == [BootNil, Consume]
    ensures s == State(Node(c.self, 0, 0, 0, 0, [], {0}, map[], [Nil]),
                       Waiting, Idle, map[], With(map[]), false, [], {})
  {
    var s0: State;
    run, acts, s0 := Starting(c);
    s := s0.(returned := With(map[]), consumer := Idle);
    run, acts := Extend(c, run, acts, s0, Consume, s);
  }

  /** One committed put, handed over and not applied yet. */
  lemma PutHeld(c: Config, e: Entry, k: Text) returns (run: seq<State>, acts: seq<Action>, s: State)
    requires e == Entry(1, Normal(Put(k, k))) && c.log == [e]
    ensures EndsIn(c, run, acts, s)
    ensures s.loop == Publishing([]) && s.consumer == Holding(Data(Put(k, k))) && s.kv == map[]
    ensures s.node.applied == 1 && s.node.snapshotIndex == 0
  {
    var s0: State;
    run, acts, s0 := Started(c);
    var rd := Ready([e], Nothing, Cut(0, 1));
    BatchSlice(0, c.log, rd.committed);
    assert s0.node.wal + [e] == [e] && c.log[0..1] == [e] && [e][1..] == [];
    var s1 := s0.(node := s0.node.(wal := s0.node.wal + [e]), loop := Publishing([e]));
    run, acts := Extend(c, run, acts, s0, Arrive(rd), s1);
    s := s1.(node := s1.node.(applied := 1, sent := s1.node.sent + Head(e)), consumer := Holding(Data(Put(k, k))),
             published := s1.published + {1}, loop := Publishing([e][1..]));
    run, acts := Extend(c, run, acts, s1, Publish, s);
  }

  /** A snapshot taken while the consumer still holds a put can miss that put. */
  lemma SnapshotCanMissHeldPut() returns (c: Config, run: seq<State>, acts: seq<Action>)
    ensures IsLog(c.log) && ValidLog(c.log) && Run(c, run, acts)
    ensures var s := run[|run| - 1];
            s.loop.ToMarkOwn? && s.node.applied <= |c.log| && s.loop.data != Fold(c.log[..s.node.applied])
  {
    var k := [Rune('k')];
    var e := Entry(1, Normal(Put(k, k)));
    c := Config(1, [e], 0, 0);
    var s: State;
    run, acts, s := PutHeld(c, e, k);
    var s1 := s.(loop := ToSnapshot);
    run, acts := Extend(c, run, acts, s, EndPublish, s1);
    var s2 := s1.(loop := ToMarkOwn(map[]));
    run, acts := Extend(c, run, acts, s1, TakeSnapshot(map[]), s2);
    FoldNext(c.log, 0);
    assert k in Fold(c.log[..1]);
  }

  function Blank(n: nat): seq<Entry>
    requires n < MAX
  {
    seq(n, i requires 0 <= i < n => Entry(i + 1, Normal(Empty)))
  }

  /** Publishes empty entries, which change nothing but the applied index. */
  lemma {:induction false} PublishBlanks(c: Config, run: seq<State>, acts: seq<Action>, s: State)
    returns (run': seq<State>, acts': seq<Action>, s': State)
    requires EndsIn(c, run, acts, s) && s.loop.Publishing? && s.node.last == 0
    requires forall i :: 0 <= i < |s.loop.todo| ==>
               s.loop.todo[i].body == Normal(Empty) && s.loop.todo[i].index == s.node.applied + 1 + i
    ensures EndsIn(c, run', acts', s')
    ensures s.node.applied + |s.loop.todo| == s'.node.applied
    ensures s' == s.(loop := Publishing([]), node := s.node.(applied := s'.node.applied), published := s'.published)
    decreases |s.loop.todo|
  {
    if s.loop.todo == [] {
      run', acts', s' := run, acts, s;
    } else {
      var e := s.loop.todo[0];
      assert e.body == Normal(Empty) && s.node.sent + Head(e) == s.node.sent;
      var s1 := s.(node := s.node.(applied := e.index, sent := s.node.sent + Head(e)),
                   published := s.published + {e.index}, loop := Publishing(s.loop.todo[1..]));
      var run1, acts1 := Extend(c, run, acts, s, Publish, s1);
      run', acts', s' := PublishBlanks(c, run1, acts1, s1);
    }
  }

  /** A node that is waiting and gets a snapshot at index 1: up to the point where the file is written. */
  lemma SnapshotFiled(c: Config, run: seq<State>, acts: seq<Action>, s: State)
    returns (run': seq<State>, acts': seq<Action>, s': State, rd: Ready)
    requires IsLog(c.log) && |c.log| >= 1 && EndsIn(c, run, acts, s) && s.loop == Waiting && s.node.applied == 0
    ensures EndsIn(c, run', acts', s') && rd == Ready([], Received(1, Fold(c.log[..1])), Cut(0, 0))
    ensures acts' == acts + [Arrive(rd), Mark, File] && run'[|acts| + 2].consumer == s.consumer
    ensures s' == s.(loop := ToSignal(rd), node := s.node.(marks := s.node.marks + {1},
                                                           snaps := s.node.snaps[1 := Fold(c.log[..1])]))
  {
    rd := Ready([], Received(1, Fold(c.log[..1])), Cut(0, 0));
    assert s.node.wal + [] == s.node.wal;
    var s1 := s.(loop := ToMark(rd));
    run', acts' := Extend(c, run, acts, s, Arrive(rd), s1);
    var s2 := s1.(node := s1.node.(marks := s1.node.marks + {1}), loop := ToFile(rd));
    run', acts' := Extend(c, run', acts', s1, Mark, s2);
    s' := s2.(node := s2.node.(snaps := s2.node.snaps[1 := Fold(c.log[..1])]), loop := ToSignal(rd));
    run', acts' := Extend(c, run', acts', s2, File, s');
    assert acts + [Arrive(rd)] + [Mark] + [File] == acts + [Arrive(rd), Mark, File];
  }

  /** A node that receives a snapshot at index 1 on an empty disk and signals it. */
  lemma SnapshotReceived(c: Config) returns (run: seq<State>, acts: seq<Action>, s: State)
    requires IsLog(c.log) && |c.log| >= 1
    ensures EndsIn(c, run, acts, s)
    ensures s == State(Node(c.self, 0, 1, 1, 1, [], {0, 1}, map[1 := Fold(c.log[..1])], [Nil, Nil]),
                       Waiting, Holding(Nil), map[], With(map[]), false, [], {})
  {
    var s0: State, s1: State, rd: Ready;
    run, acts, s0 := Started(c);
    run, acts, s1, rd := SnapshotFiled(c, run, acts, s0);
    BatchSlice(1, c.log, Cut(0, 0));
    assert c.log[1..1] == [] && [Nil] + [Nil] == [Nil, Nil] && {0} + {1} == {0, 1};
    var s2 := s1.(node := s1.node.Installed(1), consumer := Holding(Nil), loop := Publishing([]));
    run, acts := Extend(c, run, acts, s1, Signal, s2);
    s := s2.(loop := Waiting);
    run, acts := Extend(c, run, acts, s2, EndPublish, s);
  }

  /** From the end of publishing to a snapshot of the map that is taken. */
  lemma OwnSnapshotTaken(c: Config, run: seq<State>, acts: seq<Action>, s: State)
    returns (run': seq<State>, acts': seq<Action>, s': State)
    requires EndsIn(c, run, acts, s) && s.loop == Publishing([]) && K.ValidStore(s.kv)
    requires NeedsSnapshot(s.node.applied, s.node.snapshotIndex, c.snapCount)
    ensures EndsIn(c, run', acts', s') && |run'| >= 2 && TakesSnapshot(run'[|run'| - 2], s.kv, s')
    ensures run'[|run'| - 2] == s.(loop := ToSnapshot)
    ensures s' == s.(loop := ToMarkOwn(s.kv))
  {
    var s1 := s.(loop := ToSnapshot);
    run', acts' := Extend(c, run, acts, s, EndPublish, s1);
    K.OwnImage(s.kv);
    s' := s1.(loop := ToMarkOwn(s.kv));
    run', acts' := Extend(c, run', acts', s1, TakeSnapshot(s.kv), s');
  }

  /** And on to where it is about to be filed. */
  lemma OwnSnapshotMarked(c: Config, run: seq<State>, acts: seq<Action>, s: State)
    returns (run': seq<State>, acts': seq<Action>, s': State)
    requires EndsIn(c, run, acts, s) && s.loop == Publishing([]) && K.ValidStore(s.kv)
    requires NeedsSnapshot(s.node.applied, s.node.snapshotIndex, c.snapCount)
    ensures EndsIn(c, run', acts', s')
    ensures s' == s.(loop := ToFileOwn(s.kv),
                     node := s.node.(marks := s.node.marks + {s.node.applied}))
  {
    var s1: State;
    run', acts', s1 := OwnSnapshotTaken(c, run, acts, s);
    s' := s1.(node := s1.node.(marks := s1.node.marks + {s1.node.applied}), loop := ToFileOwn(s.kv));
    run', acts' := Extend(c, run', acts', s1, MarkOwn, s');
  }

  /** Empty entries arrive behind a received snapshot. */
  lemma BlanksArrived(c: Config, n: nat) returns (run: seq<State>, acts: seq<Action>, s: State)
    requires 1 <= n < MAX && c.log == Blank(n)
    ensures EndsIn(c, run, acts, s)
    ensures s.loop == Publishing(c.log[1..n]) && s.kv == map[]
    ensures s.node.applied == s.node.snapshotIndex == s.node.offset == 1 && s.node.last == 0
  {
    var s0: State;
    run, acts, s0 := SnapshotReceived(c);
    var rd := Ready(c.log, Nothing, Cut(1, n));
    BatchSlice(1, c.log, rd.committed);
    s := s0.(node := s0.node.(wal := s0.node.wal + c.log), loop := Publishing(c.log[1..n]));
    run, acts := Extend(c, run, acts, s0, Arrive(rd), s);
  }

  lemma BlanksPublished(c: Config, n: nat) returns (run: seq<State>, acts: seq<Action>, s: State)
    requires 1 <= n < MAX && c.log == Blank(n)
    ensures EndsIn(c, run, acts, s)
    ensures s.loop == Publishing([]) && s.kv == map[] && s.node.applied == n
    ensures s.node.snapshotIndex == s.node.offset == 1
  {
    var s0: State;
    run, acts, s0 := BlanksArrived(c, n);
    run, acts, s := PublishBlanks(c, run, acts, s0);
  }

  /** With snapCount below the catch-up length some run asks the in-memory log to compact at or before its
      beginning, and the node panics. So compaction is safe over all runs exactly from the catch-up length on. */
  lemma SmallSnapCountPanics(self: u64, snapCount: u64, catchUp: u64)
    returns (c: Config, run: seq<State>, acts: seq<Action>)
    requires snapCount < catchUp && snapCount + 2 < MAX
    ensures c.snapCount == snapCount && c.catchUp == catchUp && IsLog(c.log) && Run(c, run, acts)
    ensures run[|run| - 1].panicked
  {
    var n := snapCount + 2;
    c := Config(self, Blank(n), snapCount, catchUp);
    var s: State, s1: State;
    run, acts, s := BlanksPublished(c, n);
    run, acts, s1 := OwnSnapshotMarked(c, run, acts, s);
    var s2 := s1.(node := s1.node.(snaps := s1.node.snaps[n := map[]]), loop := Down, panicked := true);
    run, acts := Extend(c, run, acts, s1, FileOwn, s2);
  }

  // ---------------------------------------------------------------- a nil on its way

  lemma KeyStays(log: seq<Entry>, k: Text)
    requires |log| == 2 && log[0].body == Normal(Put(k, k)) && log[1].body == Normal(Empty)
    ensures k in Fold(log[..1]) && k in Fold(log[..2])
  {
    FoldNext(log, 0);
    FoldNext(log, 1);
  }

  /** A snapshot at 1 is signalled and entry 2 has arrived, with the nil still on its way. */
  lemma EntryBehindSnapshot(c: Config, e: Entry) returns (run: seq<State>, acts: seq<Action>, s: State)
    requires IsLog(c.log) && |c.log| == 2 && c.log[1] == e
    ensures EndsIn(c, run, acts, s)
    ensures s == State(Node(c.self, 0, 1, 1, 1, [e], {0, 1}, map[1 := Fold(c.log[..1])], [Nil, Nil]),
                       Publishing([e]), Holding(Nil), map[], With(map[]), false, [], {})
  {
    var s0: State;
    run, acts, s0 := SnapshotReceived(c);
    var rd := Ready([e], Nothing, Cut(1, 2));
    BatchSlice(1, c.log, rd.committed);
    assert s0.node.wal + [e] == [e] && c.log[1..2] == [e];
    s := s0.(node := s0.node.(wal := [e]), loop := Publishing([e]));
    run, acts := Extend(c, run, acts, s0, Arrive(rd), s);
  }

  /** The node files a snapshot of its empty map before the nil is consumed. */
  lemma EmptyMapFiled(c: Config, e: Entry) returns (run: seq<State>, acts: seq<Action>, s: State)
    requires IsLog(c.log) && |c.log| == 2 && c.log[1] == e && e.body == Normal(Empty) && c.snapCount == c.catchUp == 0
    ensures EndsIn(c, run, acts, s)
    ensures s.loop == Waiting && s.consumer == Holding(Nil) && s.node.applied == 2
    ensures s.node.snaps == map[1 := Fold(c.log[..1])][2 := map[]]
  {
    var s1: State, s2: State, s3: State;
    run, acts, s1 := EntryBehindSnapshot(c, e);
    run, acts, s2 := PublishBlanks(c, run, acts, s1);
    run, acts, s3 := OwnSnapshotMarked(c, run, acts, s2);
    var n := s3.node.(snaps := s3.node.snaps[2 := map[]]);
    s := s3.(node := n.(offset := 2, snapshotIndex := 2), loop := Waiting,
             compactions := s3.compactions + [Compaction(1, 2, 2)]);
    run, acts := Extend(c, run, acts, s3, FileOwn, s);
  }

  /** A received snapshot is signalled, an empty entry follows, and the node snapshots its still empty map. The nil
      that is on its way then loads this snapshot, and a put that everybody has applied is lost for good. */
  lemma HeldNilSpoilsMap() returns (c: Config, run: seq<State>, acts: seq<Action>)
    ensures IsLog(c.log) && ValidLog(c.log) && Run(c, run, acts)
    ensures var s := run[|run| - 1];
            && s.loop == Waiting && s.consumer == Idle && s.node.applied == |c.log|
            && s.kv != Fold(c.log[..s.node.applied])
  {
    var k := [Rune('k')];
    var e := Entry(2, Normal(Empty));
    c := Config(1, [Entry(1, Normal(Put(k, k))), e], 0, 0);
    var s: State;
    run, acts, s := EmptyMapFiled(c, e);
    OneFile(1, Fold(c.log[..1]));
    StartGrows(map[1 := Fold(c.log[..1])], 2, map[]);
    assert 2 in s.node.snaps.Keys;
    var s1 := s.(kv := map[], consumer := Idle);
    run, acts := Extend(c, run, acts, s, Consume, s1);
    KeyStays(c.log, k);
  }

  lemma OneFile(i: u64, data: Store)
    ensures Start(map[i := data]) == i && map[i := data].Keys != {}
  {
    StartGrows(map[], i, data);
    assert map[][i := data] == map[i := data];
    assert i in map[i := data].Keys;
  }

  /** The first nil is still on its way when a received snapshot is written, and the consumer moves on. */
  lemma EarlyLoad(c: Config) returns (run: seq<State>, acts: seq<Action>, s: State, rd: Ready)
    requires IsLog(c.log) && |c.log| >= 1
    ensures EndsIn(c, run, acts, s) && acts == [BootNil, Arrive(rd), Mark, File, Consume]
    ensures Between(run[4]) && Loads(run[4], Consume) && s.loop == ToSignal(rd) && rd.snap.Received?
    ensures s.consumer == Idle && s.returned == NotYet && s.node.applied == 0 && s.kv == Fold(c.log[..1])
  {
    var s0: State, s1: State;
    run, acts, s0 := Starting(c);
    run, acts, s1, rd := SnapshotFiled(c, run, acts, s0);
    OneFile(1, Fold(c.log[..1]));
    assert s1.node.snaps == map[1 := Fold(c.log[..1])];
    s := s1.(kv := Fold(c.log[..1]), consumer := Idle);
    run, acts := Extend(c, run, acts, s1, Consume, s);
  }

  lemma EarlyLoadIsQuiet(c: Config, run: seq<State>, acts: seq<Action>, rd: Ready)
    requires Run(c, run, acts) && acts == [BootNil, Arrive(rd), Mark, File, Consume]
    requires Between(run[4]) && Loads(run[4], Consume) && Between(run[5])
    ensures Quiet(run, acts, 0, 5) && LoadsEarly(run, acts, 5)
  {
    assert run[0].node.snaps.Keys == {};
  }

  /** Then the map is ahead of the applied index before the snapshot is signalled, and newKVStore goes on reading. */
  lemma EarlyLoadExample() returns (c: Config, run: seq<State>, acts: seq<Action>)
    ensures IsLog(c.log) && ValidLog(c.log) && Run(c, run, acts) && Quiet(run, acts, 0, |acts|)
    ensures LoadsEarly(run, acts, |acts|)
    ensures var s := run[|acts|];
            && s.consumer == Idle && s.returned == NotYet
            && s.node.applied <= |c.log| && View(s) != Fold(c.log[..s.node.applied])
  {
    var k := [Rune('k')];
    c := Config(1, [Entry(1, Normal(Put(k, k)))], 0, 0);
    var s: State, rd: Ready;
    run, acts, s, rd := EarlyLoad(c);
    FoldNext(c.log, 0);
    assert k in Fold(c.log[..1]) && Fold(c.log[..0]) == map[];
    EarlyLoadIsQuiet(c, run, acts, rd);
  }

  // ---------------------------------------------------------------- restarts

  /** Entries are saved, the node crashes and starts again. */
  lemma SavedAndRestarted(c: Config, run: seq<State>, acts: seq<Action>, s: State, ents: seq<Entry>)
    returns (run': seq<State>, acts': seq<Action>, s': State)
    requires IsLog(c.log) && EndsIn(c, run, acts, s) && s.loop == Waiting && s.node.applied <= |c.log|
    ensures EndsIn(c, run', acts', s')
    ensures s' == Boot(s.(node := s.node.(wal := s.node.wal + ents)))
  {
    var n := s.node.applied;
    var rd := Ready(ents, Nothing, Cut(n, n));
    BatchSlice(n, c.log, rd.committed);
    assert c.log[n..n] == [];
    var s1 := s.(node := s.node.(wal := s.node.wal + ents), loop := Publishing([]));
    run', acts' := Extend(c, run, acts, s, Arrive(rd), s1);
    var s2 := s1.(loop := Down);
    run', acts' := Extend(c, run', acts', s1, Crash, s2);
    s' := Boot(s2);
    run', acts' := Extend(c, run', acts', s2, Restart, s');
  }

  /** The next entry, a put, is handed over and consumed. */
  lemma PutReplayed(c: Config, run: seq<State>, acts: seq<Action>, s: State, e: Entry)
    returns (run': seq<State>, acts': seq<Action>, s': State)
    requires IsLog(c.log) && EndsIn(c, run, acts, s) && s.loop == Waiting && s.consumer == Idle
    requires s.node.applied < |c.log| && c.log[s.node.applied] == e && e in s.node.wal
    requires e.body.Normal? && e.body.payload.Put?
    ensures EndsIn(c, run', acts', s')
    ensures s' == s.(node := s.node.(applied := e.index, sent := s.node.sent + Head(e)),
                     kv := Write(s.kv, e.body.payload), published := s.published + {e.index},
                     loop := if e.index == s.node.last then ToNil([]) else Publishing([]))
  {
    var n := s.node.applied;
    var rd := Ready([], Nothing, Cut(n, n + 1));
    BatchSlice(n, c.log, rd.committed);
    assert s.node.wal + [] == s.node.wal && c.log[n..n + 1] == [e] && [e][1..] == [];
    var s1 := s.(loop := Publishing([e]));
    run', acts' := Extend(c, run, acts, s, Arrive(rd), s1);
    var s2 := s1.(node := s1.node.(applied := e.index, sent := s1.node.sent + Head(e)),
                  consumer := Holding(Data(e.body.payload)), published := s1.published + {e.index},
                  loop := if e.index == s.node.last then ToNil([]) else Publishing([]));
    run', acts' := Extend(c, run', acts', s1, Publish, s2);
    s' := s2.(kv := Write(s.kv, e.body.payload), consumer := Idle);
    run', acts' := Extend(c, run', acts', s2, Consume, s');
  }

  /** The nil that ends the replay is sent and consumed, and loads the newest file. */
  lemma NilLoads(c: Config, run: seq<State>, acts: seq<Action>, s: State)
    returns (run': seq<State>, acts': seq<Action>, s': State)
    requires EndsIn(c, run, acts, s) && s.loop == ToNil([]) && s.consumer == Idle && s.node.snaps.Keys != {}
    ensures EndsIn(c, run', acts', s')
    ensures s' == s.(node := s.node.(sent := s.node.sent + [Nil]), loop := Publishing([]),
                     kv := s.node.snaps[Start(s.node.snaps)])
  {
    var s1 := s.(node := s.node.(sent := s.node.sent + [Nil]), consumer := Holding(Nil), loop := Publishing([]));
    run', acts' := Extend(c, run, acts, s, SendNil, s1);
    s' := s1.(kv := s.node.snaps[Start(s.node.snaps)], consumer := Idle);
    run', acts' := Extend(c, run', acts', s1, Consume, s');
  }

  /** A node that has received a snapshot at 1 saves entries behind it, crashes and starts again. */
  lemma RestartedBehindSnapshot(c: Config, ents: seq<Entry>) returns (run: seq<State>, acts: seq<Action>, s: State)
    requires IsLog(c.log) && |c.log| >= 1 && ents != [] && ents[|ents| - 1].index > 1
    ensures EndsIn(c, run, acts, s)
    ensures s.loop == Waiting && s.consumer == Idle && s.kv == map[]
    ensures s.node == Node(c.self, ents[|ents| - 1].index, 1, 1, 1, ents, {0, 1}, map[1 := Fold(c.log[..1])], [])
  {
    var s0: State;
    run, acts, s0 := SnapshotReceived(c);
    run, acts, s := SavedAndRestarted(c, run, acts, s0, ents);
    OneFile(1, Fold(c.log[..1]));
    assert [] + ents == ents;
  }

  /** A restart with a snapshot on disk forgets the entry behind it. */
  lemma RestartForgetsExample() returns (c: Config, run: seq<State>, acts: seq<Action>)
    ensures IsLog(c.log) && ValidLog(c.log) && Run(c, run, acts)
    ensures var s := run[|run| - 1];
            && s.loop == Waiting && s.consumer == Idle && s.node.applied == |c.log|
            && s.kv != Fold(c.log[..s.node.applied])
  {
    var k, a, b := [Rune('k')], [Rune('a')], [Rune('b')];
    var e := Entry(2, Normal(Put(k, b)));
    c := Config(1, [Entry(1, Normal(Put(k, a))), e], 1, 0);
    var s0: State, s1: State, s2: State;
    run, acts, s0 := RestartedBehindSnapshot(c, [e]);
    run, acts, s1 := PutReplayed(c, run, acts, s0, e);
    OneFile(1, Fold(c.log[..1]));
    run, acts, s2 := NilLoads(c, run, acts, s1);
    run, acts := Extend(c, run, acts, s2, EndPublish, s2.(loop := Waiting));
    LastPutWins(c.log, k, a, b);
  }

  lemma LastPutWins(log: seq<Entry>, k: Text, a: Text, b: Text)
    requires |log| == 2 && log[0].body == Normal(Put(k, a)) && log[1].body == Normal(Put(k, b)) && a != b
    ensures Fold(log[..1]) == map[k := a] && Fold(log[..2]) == map[k := b]
    ensures Fold(log[..1]) != Fold(log[..2])
  {
    FoldNext(log, 0);
    FoldNext(log, 1);
    assert map[k := a][k] == a && map[k := b][k] == b;
  }

  /** The same happens to a node that starts without a snapshot file and files one of its own, a right one, before its
      replay ends. */
  lemma OwnFileForgetsExample() returns (c: Config, run: seq<State>, acts: seq<Action>)
    ensures IsLog(c.log) && ValidLog(c.log) && Run(c, run, acts)
    ensures var s := run[|run| - 1];
            && s.loop == Publishing([]) && s.consumer == Idle && s.node.applied == |c.log|
            && NewestRight(c, s.node) && s.kv != Fold(c.log[..s.node.applied])
  {
    var k, a, b := [Rune('k')], [Rune('a')], [Rune('b')];
    var e1, e2 := Entry(1, Normal(Put(k, a))), Entry(2, Normal(Put(k, b)));
    c := Config(1, [e1, e2], 0, 0);
    var s0: State, s1: State, s2: State;
    run, acts, s0 := OwnFileWritten(c, k, a, b);
    run, acts, s1 := PutReplayed(c, run, acts, s0, e2);
    OneFile(1, map[k := a]);
    run, acts, s2 := NilLoads(c, run, acts, s1);
    LastPutWins(c.log, k, a, b);
  }

  /** Two entries are saved, the node starts again, replays the first and files a snapshot. */
  lemma OwnFileWritten(c: Config, k: Text, a: Text, b: Text) returns (run: seq<State>, acts: seq<Action>, s: State)
    requires c.log == [Entry(1, Normal(Put(k, a))), Entry(2, Normal(Put(k, b)))] && c.snapCount == c.catchUp == 0
    requires K.Valid(k) && K.Valid(a)
    ensures EndsIn(c, run, acts, s) && s.loop == Waiting && s.consumer == Idle
    ensures s.node.applied == 1 && s.node.last == 2 && s.node.wal == c.log && s.node.snaps == map[1 := map[k := a]]
  {
    var s0: State, s1: State, s2: State, s3: State;
    run, acts, s0 := Started(c);
    run, acts, s1 := SavedAndRestarted(c, run, acts, s0, c.log);
    assert [] + c.log == c.log && s1.node.last == 2;
    run, acts, s2 := PutReplayed(c, run, acts, s1, c.log[0]);
    assert s2.kv == map[k := a];
    run, acts, s3 := OwnSnapshotMarked(c, run, acts, s2);
    var n := s3.node.(snaps := s3.node.snaps[1 := s3.loop.data]);
    s := s3.(node := n.(offset := 1, snapshotIndex := 1), loop := Waiting,
             compactions := s3.compactions + [Compaction(0, 1, 1)]);
    run, acts := Extend(c, run, acts, s3, FileOwn, s);
  }

  /** A node that starts with a snapshot file takes a snapshot of its own before its replay ends: the consumer is idle,
      but the keys of the file are missing. */
  lemma SnapshotBeforeNilExample() returns (c: Config, run: seq<State>, acts: seq<Action>)
    ensures IsLog(c.log) && ValidLog(c.log) && Run(c, run, acts) && |run| >= 2
    ensures var s, s' := run[|run| - 2], run[|run| - 1];
            && s.consumer == Idle && s'.loop.ToMarkOwn? && TakesSnapshot(s, s'.loop.data, s')
            && s.node.applied <= |c.log| && s'.loop.data != Fold(c.log[..s.node.applied])
  {
    var k, m := [Rune('k')], [Rune('m')];
    var e1, e2, e3 := Entry(1, Normal(Put(k, k))), Entry(2, Normal(Put(m, m))), Entry(3, Normal(Put(m, m)));
    c := Config(1, [e1, e2, e3], 0, 0);
    var s0: State, s1: State, s2: State;
    run, acts, s0 := RestartedBehindSnapshot(c, [e2, e3]);
    run, acts, s1 := PutReplayed(c, run, acts, s0, e2);
    assert s1.kv == map[m := m];
    run, acts, s2 := OwnSnapshotTaken(c, run, acts, s1);
    assert k[0] != m[0];
    OldKeyStays(c.log, k, m);
  }

  lemma OldKeyStays(log: seq<Entry>, k: Text, m: Text)
    requires |log| >= 2 && log[0].body == Normal(Put(k, k)) && log[1].body == Normal(Put(m, m)) && k != m
    ensures Fold(log[..2]) != map[m := m]
  {
    FoldNext(log, 0);
    FoldNext(log, 1);
    assert k in Fold(log[..2]) && k !in map[m := m];
  }

  /** A Ready with a snapshot at 1 and entry 2 is saved up to the entry when the node crashes: there is no snapshot
      file, and reading the WAL from the start finds a gap. */
  lemma GapExample() returns (c: Config, run: seq<State>, acts: seq<Action>)
    ensures IsLog(c.log) && Run(c, run, acts) && run[|run| - 1].loop == Down && !Readable(run[|run| - 1].node)
  {
    c := Config(1, Blank(2), 0, 0);
    var s: State;
    run, acts, s := Started(c);
    var rd := Ready([c.log[1]], Received(1, Fold(c.log[..1])), Cut(0, 0));
    var s1 := s.(node := s.node.(wal := s.node.wal + rd.entries), loop := ToMark(rd));
    run, acts := Extend(c, run, acts, s, Arrive(rd), s1);
    var s2 := s1.(loop := Down);
    run, acts := Extend(c, run, acts, s1, Crash, s2);
    assert s2.node.wal == [c.log[1]] && [c.log[1]][..0] == [];
    assert ReadAll([], 0) == Some([]);
    assert Start(s2.node.snaps) == 0;
  }
}
