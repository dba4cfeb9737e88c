/** What the runs of the pipeline guarantee: what is on disk survives a crash and compaction is sound. */
module RaftSafety {
  import opened RaftTypes
  import opened RaftNode
  import opened RaftPipeline

  /** Every reachable state satisfies the invariant. */
  lemma {:induction false} RunInv(c: Config, run: seq<State>, acts: seq<Action>, i: nat)
    requires IsLog(c.log) && Run(c, run, acts) && i < |run|
    ensures Inv(c, run[i])
  {
    if i == 0 {
      InitInv(c, run[0]);
    } else {
      RunInv(c, run, acts, i - 1);
      assert StepAt(c, run, acts, i - 1);
      StepInv(c, run[i - 1], acts[i - 1], run[i]);
    }
  }

  /** A process that is up has not been down since it started. */
  lemma StillUp(c: Config, run: seq<State>, acts: seq<Action>, i: nat)
    requires Run(c, run, acts) && i < |acts| && acts[i] != Restart && run[i + 1].loop != Down
    ensures run[i].loop != Down
  {
    assert StepAt(c, run, acts, i);
  }

  // ---------------------------------------------------------------- the theorems

  /** Steps b to i belong to one process: step b is the first or comes right after a restart. */
  ghost predicate Life(acts: seq<Action>, b: nat, i: nat) {
    && b <= i <= |acts| && (b == 0 || acts[b - 1] == Restart)
    && forall j :: b <= j < i ==> acts[j] != Restart
  }

  /** At every crash point, over any number of restarts: the WAL can be opened at the newest snapshot file,
      and every published entry is in the WAL or under a snapshot file. */
  lemma CrashSafe(c: Config, run: seq<State>, acts: seq<Action>, i: nat)
    requires IsLog(c.log) && Run(c, run, acts) && i < |run|
    ensures run[i].node.Recorded() && Start(run[i].node.snaps) in run[i].node.marks
    ensures forall k :: k in run[i].published ==>
              1 <= k <= |c.log| && (c.log[k - 1] in run[i].node.wal || exists j :: j in run[i].node.snaps && k <= j)
  {
    RunInv(c, run, acts, i);
    var n := run[i].node;
    if n.snaps.Keys != {} {
      assert Start(n.snaps) in n.snaps;
    }
  }

  /** Over every run, with snapCount at least the catch-up length: snapshots lag by at most snapCount after each
      Ready, compaction never panics, moves strictly forward past every earlier snapshot and keeps the last entries. */
  lemma CompactionSound(c: Config, run: seq<State>, acts: seq<Action>, i: nat)
    requires IsLog(c.log) && Run(c, run, acts) && i < |run| && c.snapCount >= c.catchUp
    ensures run[i].node.snapshotIndex <= run[i].node.applied
    ensures run[i].loop == Waiting ==> run[i].node.applied - run[i].node.snapshotIndex <= c.snapCount
    ensures !run[i].panicked
    ensures forall k :: 0 <= k < |run[i].compactions| ==>
              var m := run[i].compactions[k];
              m.previous < m.index <= m.applied <= run[i].node.applied && m.applied - m.index == c.catchUp
    ensures forall k, l :: 0 <= k < l < |run[i].compactions| ==>
              run[i].compactions[k].index < run[i].compactions[l].index
  {
    RunInv(c, run, acts, i);
  }
}
