/** Where nothing goes wrong: spans of a run in which the map follows the log. */
module RaftQuiet {
  import opened RaftTypes
  import opened RaftNode
  import opened RaftPipeline
  import opened RaftSafety
  import opened RaftMap
  import K = KvStore

  /** A span that begins without a snapshot file or with the signal for a received snapshot, in which the nil that ends
      a replay finds no file and own snapshots are taken with a settled consumer. */
  ghost predicate Quiet(run: seq<State>, acts: seq<Action>, b: nat, i: nat)
    requires |run| == |acts| + 1
  {
    && Span(run, acts, b, i) && (Life(acts, b, b) ==> run[b].node.snaps.Keys == {})
    && forall j :: b <= j < i ==>
         && (acts[j].TakeSnapshot? ==> Settled(run[j]))
         && (acts[j] == SendNil ==> run[j].node.snaps.Keys == {})
  }

  /** A received snapshot is on disk but not signalled, and the consumer is about to load it for an earlier nil or has
      just done so. */
  ghost predicate LoadsEarly(run: seq<State>, acts: seq<Action>, i: nat)
    requires |run| == |acts| + 1 && i < |run|
  {
    && Between(run[i])
    && (run[i].consumer == Holding(Nil) || (i > 0 && Between(run[i - 1]) && Loads(run[i - 1], acts[i - 1])))
  }

  /** The newest snapshot file holds the fold through its index, and so does one that is about to be written. */
  ghost predicate FilesRight(c: Config, s: State) {
    && NewestRight(c, s.node)
    && (s.loop.ToMarkOwn? || s.loop.ToFileOwn? ==>
          s.node.applied <= |c.log| && s.loop.data == Fold(c.log[..s.node.applied]))
  }

  /** A nil other than one that ends a replay over an older file finds a file that is not behind it. */
  lemma {:induction false} FileAhead(c: Config, run: seq<State>, acts: seq<Action>, t: nat, i: nat)
    requires IsLog(c.log) && Run(c, run, acts) && i <= |acts| && HeldSince(run, acts, t, i) && run[i].loop != Down
    requires acts[t] == SendNil ==> run[t].node.snaps.Keys == {}
    ensures run[i].node.snaps.Keys != {} ==> Start(run[i].node.snaps) >= run[t + 1].node.applied
    decreases i
  {
    if t + 1 == i {
      FileAheadAtOnce(c, run, acts, t);
    } else {
      StillUp(c, run, acts, i - 1);
      Holds(c, run, acts, t, i - 1);
      FileAhead(c, run, acts, t, i - 1);
      StartNeverFalls(c, run, acts, i - 1);
    }
  }

  lemma FileAheadAtOnce(c: Config, run: seq<State>, acts: seq<Action>, t: nat)
    requires IsLog(c.log) && Run(c, run, acts) && t < |acts| && HandsNil(acts[t]) && run[t + 1].loop != Down
    requires acts[t] == SendNil ==> run[t].node.snaps.Keys == {}
    ensures run[t + 1].node.snaps.Keys != {} ==> Start(run[t + 1].node.snaps) >= run[t + 1].node.applied
  {
    RunInv(c, run, acts, t);
    assert StepAt(c, run, acts, t);
  }

  /** The newest file is replaced by a newer one at most, or by the node's own at what is applied. */
  lemma StartNeverFalls(c: Config, run: seq<State>, acts: seq<Action>, k: nat)
    requires IsLog(c.log) && Run(c, run, acts) && k < |acts| && acts[k] != Restart && run[k + 1].loop != Down
    ensures run[k + 1].node.snaps.Keys != {} ==>
              var m := Start(run[k + 1].node.snaps);
              if run[k].node.snaps.Keys == {} then m >= run[k].node.applied else m >= Start(run[k].node.snaps)
  {
    RunInv(c, run, acts, k);
    assert StepAt(c, run, acts, k);
    if acts[k] == File {
      StartGrows(run[k].node.snaps, run[k].loop.rd.snap.index, run[k].loop.rd.snap.data);
    }
    if acts[k] == FileOwn {
      StartGrows(run[k].node.snaps, run[k].node.applied, run[k].loop.data);
    }
  }

  /** The node's own snapshot is the newest file from then on. */
  lemma OwnIsNewest(s: State, data: Store)
    requires FilesBehind(s) && !Between(s)
    ensures var snaps := s.node.snaps[s.node.applied := data];
            Start(snaps) == s.node.applied && snaps.Keys != {}
  {
    StartGrows(s.node.snaps, s.node.applied, data);
    if s.node.snaps.Keys != {} {
      assert Start(s.node.snaps) in s.node.snaps;
    }
    assert s.node.applied in s.node.snaps[s.node.applied := data].Keys;
  }

  lemma ReceivedFile(c: Config, s: State, s': State)
    requires DiskInv(c, s) && Files(s, s')
    ensures FilesRight(c, s')
  {
    ReceivedIsNewest(s, s');
  }

  lemma OwnFile(c: Config, s: State, s': State)
    requires DiskInv(c, s) && FilesRight(c, s) && FilesOwn(c, s, s')
    ensures FilesRight(c, s')
  {
    OwnIsNewest(s, s.loop.data);
  }

  lemma SameFiles(c: Config, s: State, a: Action, s': State)
    requires Step(c, s, a, s') && a != Restart && a != File && a != FileOwn && !a.TakeSnapshot?
    ensures s'.node.snaps == s.node.snaps
    ensures s'.loop.ToMarkOwn? || s'.loop.ToFileOwn? ==>
              && (s.loop.ToMarkOwn? || s.loop.ToFileOwn?)
              && s'.loop.data == s.loop.data && s'.node.applied == s.node.applied
  {
  }

  lemma FilesStep(c: Config, s: State, a: Action, s': State)
    requires DiskInv(c, s) && FilesRight(c, s) && Step(c, s, a, s') && a != Restart
    requires a.TakeSnapshot? ==> a.data == Fold(c.log[..s.node.applied])
    ensures FilesRight(c, s')
  {
    if a == File {
      ReceivedFile(c, s, s');
    } else if a == FileOwn {
      OwnFile(c, s, s');
    } else if !a.TakeSnapshot? {
      SameFiles(c, s, a, s');
    }
  }

  lemma FilesAt(c: Config, run: seq<State>, acts: seq<Action>, k: nat)
    requires IsLog(c.log) && Run(c, run, acts) && k < |acts| && acts[k] != Restart && FilesRight(c, run[k])
    requires acts[k].TakeSnapshot? ==>
               run[k].node.applied <= |c.log| && acts[k].data == Fold(c.log[..run[k].node.applied])
    ensures FilesRight(c, run[k + 1])
  {
    RunInv(c, run, acts, k);
    assert StepAt(c, run, acts, k);
    FilesStep(c, run[k], acts[k], run[k + 1]);
  }

  lemma FilesStart(c: Config, run: seq<State>, acts: seq<Action>, b: nat)
    requires IsLog(c.log) && Run(c, run, acts) && Quiet(run, acts, b, b)
    ensures FilesRight(c, run[b])
  {
    if b > 0 {
      RunInv(c, run, acts, b - 1);
      assert StepAt(c, run, acts, b - 1);
    }
  }

  lemma QuietStep(run: seq<State>, acts: seq<Action>, b: nat, i: nat)
    requires |run| == |acts| + 1 && b < i && Quiet(run, acts, b, i)
    ensures Quiet(run, acts, b, i - 1) && acts[i - 1] != Restart
    ensures acts[i - 1].TakeSnapshot? ==> Settled(run[i - 1])
  {
  }

  /** A snapshot taken with a settled consumer and a right map is right. */
  lemma SettledSnapshot(c: Config, run: seq<State>, acts: seq<Action>, k: nat)
    requires IsLog(c.log) && ValidLog(c.log) && Run(c, run, acts) && k < |acts| && acts[k].TakeSnapshot?
    requires Settled(run[k])
    ensures run[k].loop == ToSnapshot && run[k].node.applied <= |c.log| && acts[k].data == View(run[k])
  {
    RunInv(c, run, acts, k);
    assert StepAt(c, run, acts, k);
    ExactImage(run[k].kv, acts[k].data);
    SettledView(run[k]);
  }

  /** In a quiet span the newest file is always right. */
  lemma {:induction false} QuietFiles(c: Config, run: seq<State>, acts: seq<Action>, b: nat, i: nat)
    requires IsLog(c.log) && ValidLog(c.log) && Run(c, run, acts) && Quiet(run, acts, b, i)
    ensures FilesRight(c, run[i])
    decreases i, 0
  {
    if b == i {
      FilesStart(c, run, acts, b);
    } else {
      QuietStep(run, acts, b, i);
      QuietFiles(c, run, acts, b, i - 1);
      if acts[i - 1].TakeSnapshot? {
        SettledSnapshot(c, run, acts, i - 1);
        MapFollowsLog(c, run, acts, b, i - 1);
      }
      FilesAt(c, run, acts, i - 1);
    }
  }

  /** With a nil about to load a right file that is not behind it. */
  lemma PendingView(c: Config, run: seq<State>, acts: seq<Action>, t: nat, i: nat)
    requires IsLog(c.log) && Run(c, run, acts) && i <= |acts| && HeldSince(run, acts, t, i) && run[i].loop != Down
    requires run[i].node.snaps.Keys != {} && NewestRight(c, run[i].node)
    requires acts[t] == SendNil ==> run[t].node.snaps.Keys == {}
    ensures run[i].node.applied <= |c.log|
    ensures if Between(run[i]) then
              && run[i].node.applied < run[i].loop.rd.snap.index <= |c.log|
              && View(run[i]) == Fold(c.log[..run[i].loop.rd.snap.index])
            else View(run[i]) == Fold(c.log[..run[i].node.applied])
  {
    RunInv(c, run, acts, i);
    Holds(c, run, acts, t, i);
    FileAhead(c, run, acts, t, i);
    assert Start(run[i].node.snaps) in run[i].node.snaps;
    if !Between(run[i]) {
      SameFold(c.log, run[t + 1].node.applied, Start(run[i].node.snaps), run[i].node.applied);
    }
  }

  /** After such a nil has loaded it. */
  lemma LoadedView(c: Config, run: seq<State>, acts: seq<Action>, t: nat, j: nat, i: nat)
    requires IsLog(c.log) && Run(c, run, acts) && i <= |acts| && LastLoad(run, acts, t, j, i) && run[i].loop != Down
    requires NewestRight(c, run[j].node) && (acts[t] == SendNil ==> run[t].node.snaps.Keys == {})
    ensures run[i].node.applied <= |c.log| && run[i].consumer != Holding(Nil) && NoLoad(run, acts, j + 1, i)
    ensures if Between(run[j]) then
              && i == j + 1 && Between(run[i]) && run[i].node.applied < run[i].loop.rd.snap.index <= |c.log|
              && View(run[i]) == Fold(c.log[..run[i].loop.rd.snap.index])
            else View(run[i]) == Fold(c.log[..run[i].node.applied])
  {
    NoNilSince(c, run, acts, t, j, i);
    PendingView(c, run, acts, t, j);
    FromLoad(c, run, acts, t, j, i);
    if Between(run[j]) {
      WindowEnds(c, run, acts, t, j, i);
      LoadAt(c, run, acts, j);
    } else {
      OntoFold(c.log, run[j].node.applied, run[i].node.applied);
    }
  }

  lemma NotEarly(c: Config, run: seq<State>, acts: seq<Action>, b: nat, i: nat)
    requires IsLog(c.log) && Run(c, run, acts) && Quiet(run, acts, b, i) && NothingToLoad(run[i])
    requires NoLoad(run, acts, b, i)
    ensures !LoadsEarly(run, acts, i)
  {
    RunInv(c, run, acts, i);
  }

  lemma FollowsPending(c: Config, run: seq<State>, acts: seq<Action>, b: nat, i: nat)
    requires IsLog(c.log) && Run(c, run, acts) && Quiet(run, acts, b, i) && run[i].loop != Down
    requires !NothingToLoad(run[i]) && FilesRight(c, run[i])
    ensures Follows(c, run, acts, i)
  {
    var t := WhoHanded(c, run, acts, b, i);
    QuietHanding(c, run, acts, b, t, i);
    PendingView(c, run, acts, t, i);
  }

  lemma FollowsLoad(c: Config, run: seq<State>, acts: seq<Action>, b: nat, t: nat, j: nat, i: nat)
    requires IsLog(c.log) && Run(c, run, acts) && Quiet(run, acts, b, i) && run[i].loop != Down
    requires b <= t + 1 && LastLoad(run, acts, t, j, i) && FilesRight(c, run[j])
    ensures Follows(c, run, acts, i)
  {
    QuietHanding(c, run, acts, b, t, i);
    LoadedView(c, run, acts, t, j, i);
  }

  /** The map, with the held message applied, is the fold through the applied index, or through a received snapshot
      that is loaded early. */
  ghost predicate Follows(c: Config, run: seq<State>, acts: seq<Action>, i: nat)
    requires |run| == |acts| + 1 && i < |run|
  {
    && run[i].node.applied <= |c.log|
    && if LoadsEarly(run, acts, i) then
         && run[i].node.applied < run[i].loop.rd.snap.index <= |c.log|
         && View(run[i]) == Fold(c.log[..run[i].loop.rd.snap.index])
       else View(run[i]) == Fold(c.log[..run[i].node.applied])
  }

  /** In a quiet span the map plus the held message is the fold of the log through the applied index, but for one
      window: while a received snapshot is loaded before it is signalled, it is the fold through that snapshot. */
  lemma MapFollowsLog(c: Config, run: seq<State>, acts: seq<Action>, b: nat, i: nat)
    requires IsLog(c.log) && ValidLog(c.log) && Run(c, run, acts) && Quiet(run, acts, b, i) && run[i].loop != Down
    ensures Follows(c, run, acts, i)
    decreases i, 1
  {
    if !NothingToLoad(run[i]) {
      QuietFiles(c, run, acts, b, i);
      FollowsPending(c, run, acts, b, i);
    } else {
      var loaded, t, j := LoadedOrNot(c, run, acts, b, i);
      if loaded {
        QuietPrefix(run, acts, b, j, i);
        QuietFiles(c, run, acts, b, j);
        FollowsLoad(c, run, acts, b, t, j, i);
      } else {
        SignalStart(c, run, acts, b);
        UnloadedView(c, run, acts, b, i);
        NotEarly(c, run, acts, b, i);
      }
    }
  }

  lemma SignalStart(c: Config, run: seq<State>, acts: seq<Action>, b: nat)
    requires IsLog(c.log) && Run(c, run, acts) && Span(run, acts, b, b) && NothingToLoad(run[b])
    ensures Life(acts, b, b)
  {
    if b > 0 {
      RunInv(c, run, acts, b - 1);
      assert StepAt(c, run, acts, b - 1);
    }
  }

  lemma QuietPrefix(run: seq<State>, acts: seq<Action>, b: nat, j: nat, i: nat)
    requires |run| == |acts| + 1 && b <= j <= i && Quiet(run, acts, b, i)
    ensures Quiet(run, acts, b, j)
  {
  }

  lemma QuietHanding(c: Config, run: seq<State>, acts: seq<Action>, b: nat, t: nat, i: nat)
    requires |run| == |acts| + 1 && Quiet(run, acts, b, i) && b <= t + 1 <= i && HandsNil(acts[t])
    ensures acts[t] == SendNil ==> run[t].node.snaps.Keys == {}
  {
  }

  /** The map is ahead to an effect exactly when the entries it is ahead by are not redundant. */
  lemma MapRightIff(c: Config, run: seq<State>, acts: seq<Action>, b: nat, i: nat)
    requires IsLog(c.log) && ValidLog(c.log) && Run(c, run, acts) && Quiet(run, acts, b, i) && run[i].loop != Down
    ensures run[i].node.applied <= |c.log|
    ensures LoadsEarly(run, acts, i) ==> run[i].node.applied < run[i].loop.rd.snap.index <= |c.log|
    ensures View(run[i]) == Fold(c.log[..run[i].node.applied]) <==>
            (LoadsEarly(run, acts, i) ==>
               var to := run[i].loop.rd.snap.index;
               K.Redundant(c.log, run[i].node.applied, to, to))
  {
    MapFollowsLog(c, run, acts, b, i);
    if LoadsEarly(run, acts, i) {
      var from, to := run[i].node.applied, run[i].loop.rd.snap.index;
      K.RedundantIff(c.log, from, to, to);
      assert c.log[to..to] == [];
    }
  }

  /** Two idle nodes at the same applied index hold the same map. */
  lemma NodesAgree(
      c1: Config, run1: seq<State>, acts1: seq<Action>, b1: nat, i: nat,
      c2: Config, run2: seq<State>, acts2: seq<Action>, b2: nat, j: nat)
    requires c1.log == c2.log && IsLog(c1.log) && ValidLog(c1.log)
    requires Run(c1, run1, acts1) && Quiet(run1, acts1, b1, i)
    requires Run(c2, run2, acts2) && Quiet(run2, acts2, b2, j)
    requires run1[i].loop == Waiting && run1[i].consumer == Idle && run2[j].loop == Waiting && run2[j].consumer == Idle
    requires run1[i].node.applied == run2[j].node.applied
    ensures run1[i].kv == run2[j].kv
  {
    MapFollowsLog(c1, run1, acts1, b1, i);
    MapFollowsLog(c2, run2, acts2, b2, j);
  }

  /** A quiet span leaves a right newest snapshot file to the next process. */
  lemma QuietLeavesRightFile(c: Config, run: seq<State>, acts: seq<Action>, a: nat, b: nat)
    requires IsLog(c.log) && ValidLog(c.log) && Run(c, run, acts)
    requires b < |acts| && Quiet(run, acts, a, b) && acts[b] == Restart
    ensures NewestRight(c, run[b + 1].node)
  {
    QuietFiles(c, run, acts, a, b);
    assert StepAt(c, run, acts, b);
  }

  /** In a quiet span an own snapshot is right exactly when the consumer is settled. */
  lemma QuietSnapshotRightIff(
      c: Config, run: seq<State>, acts: seq<Action>, b: nat, i: nat, data: Store, s': State)
    requires IsLog(c.log) && ValidLog(c.log) && Run(c, run, acts) && Quiet(run, acts, b, i)
    requires TakesSnapshot(run[i], data, s')
    ensures run[i].node.applied <= |c.log|
    ensures data == Fold(c.log[..run[i].node.applied]) <==> Settled(run[i])
  {
    RunInv(c, run, acts, i);
    MapFollowsLog(c, run, acts, b, i);
    ExactImage(run[i].kv, data);
    SettledView(run[i]);
  }
}
