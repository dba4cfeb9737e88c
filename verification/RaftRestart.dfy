/** What goes over commitC in one process, from the replay of its WAL on. */
module RaftRestart {
  import opened Words
  import opened RaftTypes
  import opened RaftPublish
  import opened RaftNode
  import opened RaftPipeline
  import opened RaftSafety
  import opened RaftMap
  import K = KvStore

  /** Steps b to i belong to one process, and it signals no received snapshot in them. */
  ghost predicate Unsignalled(acts: seq<Action>, b: nat, i: nat) {
    Life(acts, b, i) && forall j :: b <= j < i ==> acts[j] != Signal
  }

  /** The messages that are due: the entries behind the start, with the nil behind the last replayed one. */
  ghost function Due(c: Config, boot: Node, s: State): seq<Message>
    requires boot.applied <= s.node.applied <= |c.log|
  {
    (if boot.last == 0 && s.loop != ToBootNil then [Nil] else []) +
    Stream(c.log[boot.applied..s.node.applied], boot.last)
  }

  ghost predicate Streaming(c: Config, boot: Node, s: State) {
    && s.node.last == boot.last && boot.applied <= s.node.applied <= |c.log|
    && (s.loop == ToBootNil ==> boot.last == 0 && s.node.applied == boot.applied)
    && match s.loop
       case Down => true
       case Halted => s.node.sent <= Due(c, boot, s)
       case ToNil(_) => s.node.sent + [Nil] == Due(c, boot, s)
       case _ => s.node.sent == Due(c, boot, s)
  }

  lemma {:induction false} LastSavedBehind(wal: seq<Entry>, start: u64)
    ensures LastSaved(wal, start) == 0 || LastSaved(wal, start) > start
  {
    if wal != [] && wal[|wal| - 1].index <= start {
      LastSavedBehind(wal[..|wal| - 1], start);
    }
  }

  lemma StreamStarts(c: Config, run: seq<State>, acts: seq<Action>, b: nat)
    requires IsLog(c.log) && Run(c, run, acts) && Life(acts, b, b)
    ensures Streaming(c, run[b].node, run[b])
    ensures run[b].node.last == 0 || run[b].node.last > run[b].node.applied
  {
    RunInv(c, run, acts, b);
    if b > 0 {
      assert StepAt(c, run, acts, b - 1);
      LastSavedBehind(run[b].node.wal, run[b].node.applied);
    }
    var n := run[b].node.applied;
    assert c.log[n..n] == [];
  }

  lemma StreamOn(log: seq<Entry>, s: nat, n: nat, last: u64)
    requires s <= n < |log|
    ensures Stream(log[s..n + 1], last) == Stream(log[s..n], last) + Emit(log[n], last)
  {
    assert log[s..n + 1] == log[s..n] + [log[n]];
    StreamConcat(log[s..n], [log[n]], last);
    assert Stream([log[n]], last) == Emit(log[n], last);
  }

  lemma PublishStreams(c: Config, boot: Node, s: State, s': State)
    requires IsLog(c.log) && LoopOk(c, s) && Streaming(c, boot, s) && Publishes(s, s')
    ensures Streaming(c, boot, s')
  {
    var n := s.node;
    PendingNext(c, n, s.loop.todo);
    StreamOn(c.log, boot.applied, n.applied, boot.last);
    var e := s.loop.todo[0];
    var first := if boot.last == 0 then [Nil] else [];
    SentNext(first, Stream(c.log[boot.applied..n.applied], boot.last), e, boot.last);
    assert n.sent + Head(e) + [] == n.sent + Head(e);
  }

  /** A step of the loop that puts nothing on the channel. */
  lemma OthersStream(c: Config, boot: Node, s: State, s': State)
    requires Streaming(c, boot, s) && s.loop != Down && s.loop != ToBootNil && s.loop != Halted && !s.loop.ToNil?
    requires s'.loop != ToBootNil && !s'.loop.ToNil?
    requires s'.node.applied == s.node.applied && s'.node.last == s.node.last && s'.node.sent == s.node.sent
    ensures Streaming(c, boot, s')
  {
  }

  lemma StreamStep(c: Config, boot: Node, s: State, a: Action, s': State)
    requires IsLog(c.log) && LoopOk(c, s) && Step(c, s, a, s') && s.loop != Down && s'.loop != Down
    requires Streaming(c, boot, s) && a != Restart && a != Signal
    ensures Streaming(c, boot, s')
  {
    match a {
      case Publish => PublishStreams(c, boot, s, s');
      case BootNil => assert c.log[boot.applied..boot.applied] == [];
      case SendNil =>
      case Consume =>
      case Stop =>
        if !s.loop.ToNil? {
          OthersStream(c, boot, s, s');
        }
      case _ => OthersStream(c, boot, s, s');
    }
  }

  lemma StreamAt(c: Config, run: seq<State>, acts: seq<Action>, boot: Node, k: nat)
    requires IsLog(c.log) && Run(c, run, acts) && k < |acts| && run[k + 1].loop != Down
    requires acts[k] != Restart && acts[k] != Signal
    ensures run[k].loop != Down && (Streaming(c, boot, run[k]) ==> Streaming(c, boot, run[k + 1]))
  {
    RunInv(c, run, acts, k);
    assert StepAt(c, run, acts, k);
    if Streaming(c, boot, run[k]) {
      StreamStep(c, boot, run[k], acts[k], run[k + 1]);
    }
  }

  lemma {:induction false} Streams(c: Config, run: seq<State>, acts: seq<Action>, b: nat, i: nat)
    requires IsLog(c.log) && Run(c, run, acts) && Unsignalled(acts, b, i) && run[i].loop != Down
    ensures Streaming(c, run[b].node, run[i])
    decreases i
  {
    if i == b {
      StreamStarts(c, run, acts, b);
    } else {
      StreamAt(c, run, acts, run[b].node, i - 1);
      Streams(c, run, acts, b, i - 1);
    }
  }

  lemma SentIsDue(c: Config, run: seq<State>, acts: seq<Action>, b: nat, i: nat)
    requires IsLog(c.log) && Run(c, run, acts) && Unsignalled(acts, b, i)
    requires run[i].loop != Down && run[i].loop != Halted && !run[i].loop.ToNil? && run[i].loop != ToBootNil
    ensures run[b].node.applied <= run[i].node.applied <= |c.log|
    ensures run[i].node.sent == (if run[b].node.last == 0 then [Nil] else []) +
                                Stream(c.log[run[b].node.applied..run[i].node.applied], run[b].node.last)
  {
    Streams(c, run, acts, b, i);
  }

  /** What goes over commitC in a process before it signals a received snapshot: every entry behind its start once and
      in order, with the nil behind the last replayed one, or first of all if there is nothing to replay. */
  lemma ReplayStream(c: Config, run: seq<State>, acts: seq<Action>, b: nat, i: nat)
    requires IsLog(c.log) && Run(c, run, acts) && Unsignalled(acts, b, i)
    requires run[i].loop != Down && run[i].loop != Halted && !run[i].loop.ToNil? && run[i].loop != ToBootNil
    ensures var from, to, last := run[b].node.applied, run[i].node.applied, run[b].node.last;
            && from <= to <= |c.log| && (last == 0 || from < last)
            && run[i].node.sent ==
               if last == 0 then [Nil] + DataOf(c.log[from..to])
               else if last <= to then DataOf(c.log[from..last]) + [Nil] + DataOf(c.log[last..to])
               else DataOf(c.log[from..to])
  {
    StreamStarts(c, run, acts, b);
    SentIsDue(c, run, acts, b, i);
    DueSpelledOut(c.log, run[b].node.applied, run[i].node.applied, run[b].node.last);
  }

  lemma DueSpelledOut(log: seq<Entry>, from: nat, to: nat, last: u64)
    requires IsLog(log) && from <= to <= |log| && (last == 0 || from < last)
    ensures (if last == 0 then [Nil] else []) + Stream(log[from..to], last) ==
            if last == 0 then [Nil] + DataOf(log[from..to])
            else if last <= to then DataOf(log[from..last]) + [Nil] + DataOf(log[last..to])
            else DataOf(log[from..to])
  {
    NilRightAfterLast(log, from, to, last);
  }

  lemma {:induction false} NothingSignalled(c: Config, run: seq<State>, acts: seq<Action>, b: nat, i: nat)
    requires IsLog(c.log) && Run(c, run, acts) && Life(acts, b, i) && run[i].node.snaps.Keys == {}
    ensures Unsignalled(acts, b, i) && run[b].node.snaps.Keys == {}
  {
    if run[b].node.snaps.Keys != {} {
      FilesPersist(c, run, acts, b, i);
      assert false;
    }
    forall k | b <= k < i
      ensures acts[k] != Signal
    {
      if acts[k] == Signal {
        SignalledFile(c, run, acts, k);
        FilesPersist(c, run, acts, k, i);
        assert false;
      }
    }
  }

  lemma SignalledFile(c: Config, run: seq<State>, acts: seq<Action>, k: nat)
    requires IsLog(c.log) && Run(c, run, acts) && k < |acts| && acts[k] == Signal
    ensures run[k].node.snaps.Keys != {}
  {
    RunInv(c, run, acts, k);
    assert StepAt(c, run, acts, k);
  }

  /** As long as there is no snapshot file, nil has gone out exactly once, right behind entry `last`, or first of all
      if there was nothing to replay. Whenever newKVStore returns, whatever else happens, it does so with exactly
      the fold through `last`. The consumer never quits. */
  lemma ReplayEnds(c: Config, run: seq<State>, acts: seq<Action>, b: nat, i: nat)
    requires IsLog(c.log) && Run(c, run, acts) && Life(acts, b, i) && run[i].loop != Down
    ensures run[i].consumer != Gone
    ensures var n := run[i].node;
            && n.applied <= |c.log|
            && (n.snaps.Keys == {} && run[i].loop != Halted && !run[i].loop.ToNil? && run[i].loop != ToBootNil ==>
                  n.sent == if n.last == 0 then [Nil] + DataOf(c.log[..n.applied])
                            else if n.last <= n.applied then
                              DataOf(c.log[..n.last]) + [Nil] + DataOf(c.log[n.last..n.applied])
                            else DataOf(c.log[..n.applied]))
    ensures run[i].returned.With? ==>
              run[i].node.last <= |c.log| && run[i].returned.kv == Fold(c.log[..run[i].node.last])
  {
    RunInv(c, run, acts, i);
    ReturnsRight(c, run, acts, b, i);
    var n := run[i].node;
    if n.snaps.Keys == {} && run[i].loop != Halted && !run[i].loop.ToNil? && run[i].loop != ToBootNil {
      NothingSignalled(c, run, acts, b, i);
      ReplayStream(c, run, acts, b, i);
      NoFileStart(c, run, acts, b);
      LastStays(c, run, acts, b, i);
      assert c.log[0..n.applied] == c.log[..n.applied];
      assert n.last <= n.applied ==> c.log[0..n.last] == c.log[..n.last];
    }
  }

  // ---------------------------------------------------------------- what the consumer makes of it

  /** The messages that the consumer has worked off in steps b to i. */
  function Taken(run: seq<State>, acts: seq<Action>, b: nat, i: nat): seq<Message>
    requires |run| == |acts| + 1 && b <= i <= |acts|
  {
    if b == i then []
    else
      Taken(run, acts, b, i - 1) +
      if acts[i - 1] == Consume && run[i - 1].consumer.Holding? then [run[i - 1].consumer.m] else []
  }

  /** The same with what the snapshotter found for each nil. */
  ghost function Events(run: seq<State>, acts: seq<Action>, b: nat, i: nat): seq<K.Received>
    requires |run| == |acts| + 1 && b <= i <= |acts|
  {
    if b == i then []
    else
      Events(run, acts, b, i - 1) +
      if acts[i - 1] == Consume && run[i - 1].consumer.Holding? then [Event(run[i - 1].node, run[i - 1].consumer.m)]
      else []
  }

  function Held(s: State): seq<Message> {
    if s.consumer.Holding? then [s.consumer.m] else []
  }

  /** A step other than Consume hands the consumer exactly what it puts on the channel. */
  lemma HandsOver(c: Config, s: State, a: Action, s': State)
    requires Step(c, s, a, s') && a != Restart && a != Consume && s'.loop != Down
    ensures s'.kv == s.kv
    ensures (s'.node.sent == s.node.sent && Held(s') == Held(s)) ||
            (Held(s) == [] && s'.node.sent == s.node.sent + Held(s'))
  {
    if a == Publish {
      assert s.node.sent + [] == s.node.sent;
    }
  }

  lemma TakesOne(c: Config, s: State, s': State)
    requires Consumes(s, s') && s'.loop != Down
    ensures s'.node == s.node && Held(s') == [] && s'.kv == K.Took(s.kv, Event(s.node, s.consumer.m))
  {
  }

  lemma StartsEmpty(c: Config, run: seq<State>, acts: seq<Action>, b: nat)
    requires Run(c, run, acts) && Life(acts, b, b)
    ensures run[b].node.sent == [] && Held(run[b]) == [] && run[b].kv == map[]
  {
    if b > 0 {
      assert StepAt(c, run, acts, b - 1);
    }
  }

  /** In every process the consumer gets exactly what goes over commitC, message by message and in order, and its map is
      what those messages denote. */
  lemma {:induction false} ConsumerGetsStream(c: Config, run: seq<State>, acts: seq<Action>, b: nat, i: nat)
    requires IsLog(c.log) && Run(c, run, acts) && Life(acts, b, i) && run[i].loop != Down
    ensures run[i].node.sent == Taken(run, acts, b, i) + Held(run[i])
    ensures run[i].kv == K.Denoted(map[], Events(run, acts, b, i))
    decreases i
  {
    if b == i {
      StartsEmpty(c, run, acts, b);
    } else {
      StillUp(c, run, acts, i - 1);
      ConsumerGetsStream(c, run, acts, b, i - 1);
      assert StepAt(c, run, acts, i - 1);
      if acts[i - 1] == Consume {
        TakesOne(c, run[i - 1], run[i]);
        K.DenotedLast(map[], Events(run, acts, b, i - 1), Event(run[i - 1].node, run[i - 1].consumer.m));
      } else {
        HandsOver(c, run[i - 1], acts[i - 1], run[i]);
        assert Events(run, acts, b, i) == Events(run, acts, b, i - 1);
      }
    }
  }
}
