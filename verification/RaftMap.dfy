/** The map of every process, whatever it starts with, receives and snapshots: it grows from nothing until a nil finds a
    snapshot file, and from that file on afterwards. */
module RaftMap {
  import opened RaftTypes
  import opened RaftPublish
  import opened RaftNode
  import opened RaftPipeline
  import opened RaftSafety
  import K = KvStore

  /** The consumer takes a nil and finds a snapshot file. */
  ghost predicate Loads(s: State, a: Action) {
    a == Consume && s.consumer == Holding(Nil) && s.node.snaps.Keys != {}
  }

  /** The loop hands over a nil: at the start, at the end of the replay, or for a received snapshot. */
  predicate HandsNil(a: Action) {
    a == BootNil || a == SendNil || a == Signal
  }

  /** The store that a nil makes the consumer load. */
  ghost function Newest(n: Node): Store
    requires n.snaps.Keys != {}
  {
    n.snaps[Start(n.snaps)]
  }

  /** It holds the fold through its index. */
  ghost predicate NewestRight(c: Config, n: Node) {
    n.snaps.Keys != {} ==> Start(n.snaps) <= |c.log| && Newest(n) == Fold(c.log[..Start(n.snaps)])
  }

  // ---------------------------------------------------------------- between two loads

  /** No nil is about to load a file. */
  ghost predicate NothingToLoad(s: State) {
    s.loop != Down && (s.consumer != Holding(Nil) || s.node.snaps.Keys == {})
  }

  /** The map is what the entries behind an index have made of a base. */
  ghost predicate GrownFrom(c: Config, base: Store, from: nat, s: State) {
    NothingToLoad(s) ==>
      from <= s.node.applied <= |c.log| && View(s) == Onto(base, c.log[from..s.node.applied])
  }

  lemma PublishGrows(c: Config, base: Store, from: nat, s: State, s': State)
    requires IsLog(c.log) && LoopOk(c, s) && GrownFrom(c, base, from, s) && Publishes(s, s') && NothingToLoad(s)
    ensures GrownFrom(c, base, from, s')
  {
    PendingNext(c, s.node, s.loop.todo);
    OntoNext(base, c.log, from, s.node.applied);
  }

  /** Where the map, what is applied and the consumer stay. */
  lemma SameGrows(c: Config, base: Store, from: nat, s: State, s': State)
    requires GrownFrom(c, base, from, s) && NothingToLoad(s) && NothingToLoad(s')
    requires s'.kv == s.kv && s'.node.applied == s.node.applied
    requires s'.consumer == s.consumer || (s.consumer == Idle && s'.consumer == Holding(Nil))
    ensures GrownFrom(c, base, from, s')
  {
  }

  /** Before a step after which nothing is to be loaded, nothing was to be loaded either, unless the step is a load.
      With a snapshot file about, such a step hands over no nil. */
  lemma StepBack(c: Config, s: State, a: Action, s': State)
    requires Step(c, s, a, s') && a != Restart && NothingToLoad(s') && !Loads(s, a)
    ensures NothingToLoad(s) && (s.node.snaps.Keys != {} ==> !HandsNil(a) && s'.node.snaps.Keys != {})
  {
    if a == File {
      assert s.loop.rd.snap.index in s'.node.snaps.Keys;
    }
    if a == FileOwn {
      assert s.node.applied in s'.node.snaps.Keys;
    }
  }

  lemma NoSignal(c: Config, s: State, a: Action, s': State)
    requires DiskInv(c, s) && Step(c, s, a, s') && NothingToLoad(s')
    ensures a != Signal
  {
  }

  /** Every step keeps this, but a load and a restart. */
  lemma GrowStep(c: Config, base: Store, from: nat, s: State, a: Action, s': State)
    requires IsLog(c.log) && DiskInv(c, s) && GrownFrom(c, base, from, s) && Step(c, s, a, s')
    requires a != Restart && !Loads(s, a)
    ensures GrownFrom(c, base, from, s')
  {
    if NothingToLoad(s') {
      StepBack(c, s, a, s');
      NoSignal(c, s, a, s');
      if a == Publish {
        PublishGrows(c, base, from, s, s');
      } else if a == Consume {
        ConsumeKeepsView(s, s');
      } else {
        SameGrows(c, base, from, s, s');
      }
    }
  }

  /** Steps a to i neither restart nor load. */
  ghost predicate NoLoad(run: seq<State>, acts: seq<Action>, a: nat, i: nat)
    requires |run| == |acts| + 1 && i <= |acts|
  {
    forall k :: a <= k < i ==> acts[k] != Restart && !Loads(run[k], acts[k])
  }

  lemma {:induction false} Grows(
      c: Config, run: seq<State>, acts: seq<Action>, base: Store, from: nat, a: nat, i: nat)
    requires IsLog(c.log) && Run(c, run, acts) && a <= i <= |acts| && NoLoad(run, acts, a, i)
    requires GrownFrom(c, base, from, run[a])
    ensures GrownFrom(c, base, from, run[i])
    decreases i
  {
    if a < i {
      Grows(c, run, acts, base, from, a, i - 1);
      RunInv(c, run, acts, i - 1);
      assert StepAt(c, run, acts, i - 1);
      GrowStep(c, base, from, run[i - 1], acts[i - 1], run[i]);
    }
  }

  lemma GrownAtStart(c: Config, run: seq<State>, acts: seq<Action>, b: nat)
    requires IsLog(c.log) && Run(c, run, acts) && Life(acts, b, b)
    ensures GrownFrom(c, map[], run[b].node.applied, run[b])
  {
    RunInv(c, run, acts, b);
    if b > 0 {
      assert StepAt(c, run, acts, b - 1);
    }
    var n := run[b].node.applied;
    assert c.log[n..n] == [];
  }

  /** Until a process loads a file, its map is what the entries behind its start make of nothing. */
  lemma MapBeforeLoad(c: Config, run: seq<State>, acts: seq<Action>, b: nat, i: nat)
    requires IsLog(c.log) && Run(c, run, acts) && Life(acts, b, i) && NoLoad(run, acts, b, i)
    requires NothingToLoad(run[i])
    ensures run[b].node.applied <= run[i].node.applied <= |c.log|
    ensures View(run[i]) == Onto(map[], c.log[run[b].node.applied..run[i].node.applied])
    ensures View(run[i]) == Fold(c.log[..run[i].node.applied]) <==>
            K.Rewritten(c.log, run[b].node.applied, run[i].node.applied)
  {
    GrownAtStart(c, run, acts, b);
    Grows(c, run, acts, map[], run[b].node.applied, b, i);
    K.RewrittenIff(c.log, run[b].node.applied, run[i].node.applied);
  }

  // ---------------------------------------------------------------- a nil on its way

  ghost predicate Silent(ents: seq<Entry>) {
    forall e :: e in ents ==> !Carries(e)
  }

  lemma {:induction false} SilentKeeps(base: Store, ents: seq<Entry>)
    requires Silent(ents)
    ensures Onto(base, ents) == base
  {
    if ents != [] {
      SilentKeeps(base, ents[..|ents| - 1]);
      assert !Carries(ents[|ents| - 1]);
    }
  }

  /** Step t hands over a nil, and the consumer still holds it at i. */
  ghost predicate HeldSince(run: seq<State>, acts: seq<Action>, t: nat, i: nat)
    requires |run| == |acts| + 1 && i <= |acts|
  {
    && t < i && HandsNil(acts[t])
    && forall k :: t < k <= i ==> run[k].consumer == Holding(Nil) && (k < i ==> acts[k] != Restart)
  }

  lemma HandedOver(c: Config, run: seq<State>, acts: seq<Action>, t: nat)
    requires IsLog(c.log) && Run(c, run, acts) && t < |acts| && HandsNil(acts[t]) && run[t + 1].loop != Down
    ensures run[t].loop != Down && run[t].consumer == Idle && run[t + 1].kv == run[t].kv
    ensures run[t].node.applied <= run[t + 1].node.applied <= |c.log|
    ensures acts[t] == SendNil ==> run[t + 1].node.applied == run[t].node.last
  {
    RunInv(c, run, acts, t);
    RunInv(c, run, acts, t + 1);
    assert StepAt(c, run, acts, t);
  }

  lemma HoldStep(c: Config, s: State, a: Action, s': State)
    requires IsLog(c.log) && DiskInv(c, s) && Step(c, s, a, s') && a != Restart && s'.loop != Down
    requires s.consumer == Holding(Nil) && s'.consumer == Holding(Nil)
    ensures s.loop != Down && s'.kv == s.kv
    ensures s'.node.applied == s.node.applied ||
            (s.node.applied < |c.log| && s'.node.applied == s.node.applied + 1 && !Carries(c.log[s.node.applied]))
  {
    if a == Publish {
      PendingNext(c, s.node, s.loop.todo);
    }
  }

  lemma HoldAt(c: Config, run: seq<State>, acts: seq<Action>, k: nat)
    requires IsLog(c.log) && Run(c, run, acts) && k < |acts| && acts[k] != Restart && run[k + 1].loop != Down
    requires run[k].consumer == Holding(Nil) && run[k + 1].consumer == Holding(Nil)
    ensures run[k].loop != Down && run[k + 1].kv == run[k].kv
    ensures var n := run[k].node.applied;
            run[k + 1].node.applied == n || (n < |c.log| && run[k + 1].node.applied == n + 1 && !Carries(c.log[n]))
  {
    RunInv(c, run, acts, k);
    assert StepAt(c, run, acts, k);
    HoldStep(c, run[k], acts[k], run[k + 1]);
  }

  lemma SilentNext(log: seq<Entry>, p: nat, n: nat)
    requires p <= n < |log| && Silent(log[p..n]) && !Carries(log[n])
    ensures Silent(log[p..n + 1])
  {
    assert log[p..n + 1] == log[p..n] + [log[n]];
  }

  /** While a nil is held, the map stays and nothing but entries without data go by. */
  lemma {:induction false} Holds(c: Config, run: seq<State>, acts: seq<Action>, t: nat, i: nat)
    requires IsLog(c.log) && Run(c, run, acts) && i <= |acts| && HeldSince(run, acts, t, i) && run[i].loop != Down
    ensures run[t].loop != Down && run[t].consumer == Idle && run[i].kv == run[t].kv
    ensures run[t].node.applied <= run[t + 1].node.applied <= run[i].node.applied <= |c.log|
    ensures Silent(c.log[run[t + 1].node.applied..run[i].node.applied])
    ensures acts[t] == SendNil ==> run[t + 1].node.applied == run[t].node.last
    decreases i
  {
    if t + 1 == i {
      HandedOver(c, run, acts, t);
    } else {
      HoldAt(c, run, acts, i - 1);
      Holds(c, run, acts, t, i - 1);
      if run[i].node.applied == run[i - 1].node.applied + 1 {
        SilentNext(c.log, run[t + 1].node.applied, run[i - 1].node.applied);
      }
    }
  }

  // ---------------------------------------------------------------- behind a load

  /** What a load makes of the map. */
  lemma LoadAt(c: Config, run: seq<State>, acts: seq<Action>, j: nat)
    requires IsLog(c.log) && Run(c, run, acts) && j < |acts| && Loads(run[j], acts[j]) && run[j].loop != Down
    ensures run[j].node.applied <= |c.log| && run[j + 1].node.applied == run[j].node.applied
    ensures run[j + 1].loop == run[j].loop
    ensures run[j + 1].consumer == Idle && View(run[j + 1]) == Newest(run[j].node)
  {
    RunInv(c, run, acts, j);
    assert StepAt(c, run, acts, j);
  }

  /** Step t hands over a nil, step j loads a file for it, and no other nil is handed over before i. */
  ghost predicate LastLoad(run: seq<State>, acts: seq<Action>, t: nat, j: nat, i: nat)
    requires |run| == |acts| + 1 && i <= |acts|
  {
    && t < j < i && HeldSince(run, acts, t, j) && Loads(run[j], acts[j])
    && forall k :: j < k < i ==> acts[k] != Restart && !HandsNil(acts[k])
  }

  lemma NoNilAt(c: Config, run: seq<State>, acts: seq<Action>, k: nat)
    requires Run(c, run, acts) && k < |acts| && !HandsNil(acts[k]) && acts[k] != Restart
    requires run[k].consumer != Holding(Nil) || acts[k] == Consume
    ensures run[k + 1].loop != Down ==> run[k + 1].consumer != Holding(Nil)
  {
    assert StepAt(c, run, acts, k);
  }

  lemma {:induction false} NoNilSince(c: Config, run: seq<State>, acts: seq<Action>, t: nat, j: nat, i: nat)
    requires Run(c, run, acts) && i <= |acts| && LastLoad(run, acts, t, j, i) && run[i].loop != Down
    ensures run[i].consumer != Holding(Nil) && NoLoad(run, acts, j + 1, i)
    ensures run[j].loop != Down && run[j + 1].loop != Down
    decreases i
  {
    StillUp(c, run, acts, i - 1);
    if j + 1 < i {
      NoNilSince(c, run, acts, t, j, i - 1);
    }
    NoNilAt(c, run, acts, i - 1);
  }

  /** After a load, the map is what the entries since make of the file that was the newest then. */
  lemma FromLoad(c: Config, run: seq<State>, acts: seq<Action>, t: nat, j: nat, i: nat)
    requires IsLog(c.log) && Run(c, run, acts) && i <= |acts| && LastLoad(run, acts, t, j, i) && run[i].loop != Down
    ensures run[j].node.applied <= run[i].node.applied <= |c.log|
    ensures View(run[i]) == Onto(Newest(run[j].node), c.log[run[j].node.applied..run[i].node.applied])
  {
    NoNilSince(c, run, acts, t, j, i);
    LoadAt(c, run, acts, j);
    var q := run[j].node.applied;
    assert c.log[q..q] == [];
    Grows(c, run, acts, Newest(run[j].node), q, j + 1, i);
  }

  lemma SilentFirst(base: Store, log: seq<Entry>, p: nat, q: nat, n: nat)
    requires p <= q <= n <= |log| && Silent(log[p..q])
    ensures Onto(base, log[p..n]) == Onto(base, log[q..n])
  {
    if n == q {
      SilentKeeps(base, log[p..q]);
      assert log[q..n] == [];
    } else {
      SilentFirst(base, log, p, q, n - 1);
      OntoNext(base, log, p, n - 1);
      OntoNext(base, log, q, n - 1);
    }
  }

  /** Hence also what the entries behind the nil make of it, as those that went by with the nil change nothing. */
  lemma MapAfterLoad(c: Config, run: seq<State>, acts: seq<Action>, t: nat, j: nat, i: nat)
    requires IsLog(c.log) && Run(c, run, acts) && i <= |acts| && LastLoad(run, acts, t, j, i) && run[i].loop != Down
    ensures run[t + 1].node.applied <= run[i].node.applied <= |c.log|
    ensures View(run[i]) == Onto(Newest(run[j].node), c.log[run[t + 1].node.applied..run[i].node.applied])
    ensures acts[t] == SendNil ==> run[t + 1].node.applied == run[t].node.last
  {
    NoNilSince(c, run, acts, t, j, i);
    Holds(c, run, acts, t, j);
    FromLoad(c, run, acts, t, j, i);
    SilentFirst(Newest(run[j].node), c.log, run[t + 1].node.applied, run[j].node.applied, run[i].node.applied);
  }

  /** If the file is the fold through an index that the nil is not behind, the map is right exactly when the entries
      between the two are redundant. */
  lemma RightAfterLoad(c: Config, run: seq<State>, acts: seq<Action>, t: nat, j: nat, i: nat, m: nat)
    requires IsLog(c.log) && Run(c, run, acts) && i <= |acts| && LastLoad(run, acts, t, j, i) && run[i].loop != Down
    requires m <= run[t + 1].node.applied && m <= |c.log| && Newest(run[j].node) == Fold(c.log[..m])
    ensures run[t + 1].node.applied <= run[i].node.applied <= |c.log|
    ensures View(run[i]) == Fold(c.log[..run[i].node.applied]) <==>
            K.Redundant(c.log, m, run[t + 1].node.applied, run[i].node.applied)
  {
    MapAfterLoad(c, run, acts, t, j, i);
    K.RedundantIff(c.log, m, run[t + 1].node.applied, run[i].node.applied);
  }

  lemma WindowStuck(c: Config, run: seq<State>, acts: seq<Action>, k: nat)
    requires Run(c, run, acts) && k < |acts| && Between(run[k]) && run[k].consumer == Idle
    requires acts[k] != Restart && !HandsNil(acts[k])
    ensures run[k + 1].loop == Down
  {
    assert StepAt(c, run, acts, k);
  }

  lemma {:induction false} Alive(c: Config, run: seq<State>, acts: seq<Action>, k: nat, i: nat)
    requires Run(c, run, acts) && k <= i <= |acts| && run[i].loop != Down
    requires forall x :: k <= x < i ==> acts[x] != Restart
    ensures run[k].loop != Down
    decreases i
  {
    if k < i {
      StillUp(c, run, acts, i - 1);
      Alive(c, run, acts, k, i - 1);
    }
  }

  /** A load in the window before a signal leaves nothing to do but to signal. */
  lemma WindowEnds(c: Config, run: seq<State>, acts: seq<Action>, t: nat, j: nat, i: nat)
    requires IsLog(c.log) && Run(c, run, acts) && i <= |acts| && LastLoad(run, acts, t, j, i) && run[i].loop != Down
    requires Between(run[j])
    ensures i == j + 1 && run[i].loop == run[j].loop && run[i].node.applied == run[j].node.applied
  {
    NoNilSince(c, run, acts, t, j, i);
    LoadAt(c, run, acts, j);
    if i > j + 1 {
      Alive(c, run, acts, j + 2, i);
      WindowStuck(c, run, acts, j + 1);
      assert false;
    }
  }

  /** A right file that is ahead of the nil: one that was written while the nil was on its way. If the node has applied
      as much, the map is right; if it is a received snapshot that is not signalled yet, the map is ahead. */
  lemma AheadAfterLoad(c: Config, run: seq<State>, acts: seq<Action>, t: nat, j: nat, i: nat)
    requires IsLog(c.log) && Run(c, run, acts) && i <= |acts| && LastLoad(run, acts, t, j, i) && run[i].loop != Down
    requires NewestRight(c, run[j].node) && Start(run[j].node.snaps) > run[t + 1].node.applied
    ensures run[i].node.applied <= |c.log| && Start(run[j].node.snaps) <= |c.log|
    ensures var m, to := Start(run[j].node.snaps), run[i].node.applied;
            if m <= to then View(run[i]) == Fold(c.log[..to])
            else
              && View(run[i]) == Fold(c.log[..m])
              && (View(run[i]) == Fold(c.log[..to]) <==> K.Redundant(c.log, to, m, m))
  {
    var m, p, q, to := Start(run[j].node.snaps), run[t + 1].node.applied, run[j].node.applied, run[i].node.applied;
    NoNilSince(c, run, acts, t, j, i);
    Holds(c, run, acts, t, j);
    RunInv(c, run, acts, j);
    RunInv(c, run, acts, i);
    FromLoad(c, run, acts, t, j, i);
    assert m in run[j].node.snaps;
    if m <= q {
      SameFold(c.log, p, m, q);
      OntoFold(c.log, q, to);
    } else {
      WindowEnds(c, run, acts, t, j, i);
      assert c.log[q..to] == [] && c.log[m..m] == [];
      K.RedundantIff(c.log, to, m, m);
    }
  }

  lemma SameFold(log: seq<Entry>, p: nat, m: nat, q: nat)
    requires p <= m <= q <= |log| && Silent(log[p..q])
    ensures Fold(log[..m]) == Fold(log[..q])
  {
    assert forall i :: 0 <= i < q - m ==> log[m..q][i] == log[p..q][m - p + i];
    SilentKeeps(Fold(log[..m]), log[m..q]);
    OntoFold(log, m, q);
  }

  // ---------------------------------------------------------------- every state

  /** Steps b to i belong to one process, and step b is its first or follows the signal for a received snapshot. */
  ghost predicate Span(run: seq<State>, acts: seq<Action>, b: nat, i: nat)
    requires |run| == |acts| + 1
  {
    && b <= i <= |acts| && (Life(acts, b, b) || (b > 0 && acts[b - 1] == Signal && run[b].loop != Down))
    && forall j :: b <= j < i ==> acts[j] != Restart
  }

  lemma {:induction false} WhoHanded(c: Config, run: seq<State>, acts: seq<Action>, b: nat, i: nat) returns (t: nat)
    requires Run(c, run, acts) && Span(run, acts, b, i) && run[i].consumer == Holding(Nil)
    ensures b <= t + 1 <= i && HeldSince(run, acts, t, i)
    decreases i
  {
    if b == i {
      FirstHolder(c, run, acts, b);
      t := b - 1;
      return;
    }
    if HandsNil(acts[i - 1]) {
      t := i - 1;
    } else {
      HeldBefore(c, run, acts, i - 1);
      t := WhoHanded(c, run, acts, b, i - 1);
    }
  }

  lemma HeldBefore(c: Config, run: seq<State>, acts: seq<Action>, k: nat)
    requires Run(c, run, acts) && k < |acts| && !HandsNil(acts[k]) && acts[k] != Restart
    ensures run[k + 1].consumer == Holding(Nil) ==> run[k].consumer == Holding(Nil)
  {
    assert StepAt(c, run, acts, k);
  }

  /** At the beginning the consumer is idle, or has just been handed a nil that is about to load a file. */
  lemma FirstHolder(c: Config, run: seq<State>, acts: seq<Action>, b: nat)
    requires Run(c, run, acts) && Span(run, acts, b, b)
    ensures Life(acts, b, b) ==> run[b].consumer == Idle
    ensures !Life(acts, b, b) ==> run[b].consumer == Holding(Nil)
  {
    if b > 0 {
      assert StepAt(c, run, acts, b - 1);
    }
  }

  lemma BackAt(c: Config, run: seq<State>, acts: seq<Action>, k: nat)
    requires Run(c, run, acts) && k < |acts| && acts[k] != Restart && NothingToLoad(run[k + 1])
    requires !Loads(run[k], acts[k])
    ensures NothingToLoad(run[k])
    ensures run[k].node.snaps.Keys != {} ==> !HandsNil(acts[k]) && run[k + 1].node.snaps.Keys != {}
  {
    assert StepAt(c, run, acts, k);
    StepBack(c, run[k], acts[k], run[k + 1]);
  }

  lemma FilesRemain(c: Config, run: seq<State>, acts: seq<Action>, k: nat)
    requires Run(c, run, acts) && k < |acts| && Loads(run[k], acts[k])
    ensures run[k + 1].node.snaps.Keys != {}
  {
    assert StepAt(c, run, acts, k);
  }

  /** Every state of every process in which no nil is about to load a file: either the process has loaded nothing yet,
      or there is a last load. */
  lemma {:induction false} LoadedOrNot(c: Config, run: seq<State>, acts: seq<Action>, b: nat, i: nat)
    returns (loaded: bool, t: nat, j: nat)
    requires Run(c, run, acts) && Span(run, acts, b, i) && NothingToLoad(run[i])
    ensures !loaded ==> NoLoad(run, acts, b, i) && NothingToLoad(run[b])
    ensures loaded ==> b <= t + 1 && LastLoad(run, acts, t, j, i) && run[i].node.snaps.Keys != {}
    decreases i
  {
    if b == i {
      loaded, t, j := false, 0, 0;
    } else {
      if Loads(run[i - 1], acts[i - 1]) {
        FilesRemain(c, run, acts, i - 1);
        t := WhoHanded(c, run, acts, b, i - 1);
        loaded, j := true, i - 1;
      } else {
        BackAt(c, run, acts, i - 1);
        loaded, t, j := LoadedOrNot(c, run, acts, b, i - 1);
      }
    }
  }

  /** The map of every process: before its first load it has grown from nothing behind the start, afterwards from the
      newest file of the last load behind the nil that caused it. While a nil is about to load a file, the view is
      that file. */
  lemma MapOfProcess(c: Config, run: seq<State>, acts: seq<Action>, b: nat, i: nat)
    returns (loaded: bool, t: nat, j: nat)
    requires IsLog(c.log) && Run(c, run, acts) && Life(acts, b, i) && run[i].loop != Down
    ensures !NothingToLoad(run[i]) ==> run[i].node.snaps.Keys != {} && View(run[i]) == Newest(run[i].node)
    ensures NothingToLoad(run[i]) && !loaded ==>
              && NoLoad(run, acts, b, i) && run[b].node.applied <= run[i].node.applied <= |c.log|
              && View(run[i]) == Onto(map[], c.log[run[b].node.applied..run[i].node.applied])
    ensures NothingToLoad(run[i]) && loaded ==>
              && LastLoad(run, acts, t, j, i)
              && run[t + 1].node.applied <= run[i].node.applied <= |c.log|
              && View(run[i]) == Onto(Newest(run[j].node), c.log[run[t + 1].node.applied..run[i].node.applied])
  {
    loaded, t, j := false, 0, 0;
    if NothingToLoad(run[i]) {
      loaded, t, j := LoadedOrNot(c, run, acts, b, i);
      if loaded {
        MapAfterLoad(c, run, acts, t, j, i);
      } else {
        MapBeforeLoad(c, run, acts, b, i);
      }
    }
  }

  // ---------------------------------------------------------------- how newKVStore returns

  /** Snapshot files are never deleted. */
  lemma FilesStay(c: Config, run: seq<State>, acts: seq<Action>, k: nat)
    requires Run(c, run, acts) && k < |acts| && run[k].node.snaps.Keys != {}
    ensures run[k + 1].node.snaps.Keys != {}
  {
    assert StepAt(c, run, acts, k);
    if acts[k] == File {
      assert run[k].loop.rd.snap.index in run[k + 1].node.snaps.Keys;
    }
    if acts[k] == FileOwn {
      assert run[k].node.applied in run[k + 1].node.snaps.Keys;
    }
  }

  lemma {:induction false} FilesPersist(c: Config, run: seq<State>, acts: seq<Action>, k: nat, i: nat)
    requires Run(c, run, acts) && k <= i <= |acts| && run[k].node.snaps.Keys != {}
    ensures run[i].node.snaps.Keys != {}
    decreases i
  {
    if k < i {
      FilesPersist(c, run, acts, k, i - 1);
      FilesStay(c, run, acts, i - 1);
    }
  }

  lemma ReturnAt(c: Config, run: seq<State>, acts: seq<Action>, k: nat)
    requires Run(c, run, acts) && k < |acts| && acts[k] != Restart
    ensures run[k + 1].node.last == run[k].node.last
    ensures run[k + 1].returned == run[k].returned ||
            (&& acts[k] == Consume && run[k].consumer == Holding(Nil) && run[k].node.snaps.Keys == {}
             && run[k].loop != Down && run[k + 1].returned == With(run[k].kv))
  {
    assert StepAt(c, run, acts, k);
  }

  lemma {:induction false} LastStays(c: Config, run: seq<State>, acts: seq<Action>, b: nat, i: nat)
    requires Run(c, run, acts) && b <= i <= |acts| && forall k :: b <= k < i ==> acts[k] != Restart
    ensures run[i].node.last == run[b].node.last
    decreases i
  {
    if b < i {
      LastStays(c, run, acts, b, i - 1);
      ReturnAt(c, run, acts, i - 1);
    }
  }

  lemma NotYetReturned(c: Config, run: seq<State>, acts: seq<Action>, b: nat)
    requires Run(c, run, acts) && Life(acts, b, b)
    ensures run[b].returned == NotYet
  {
    if b > 0 {
      assert StepAt(c, run, acts, b - 1);
    }
  }

  /** A process that starts with a snapshot file never gets out of newKVStore. */
  lemma {:induction false} NeverReturns(c: Config, run: seq<State>, acts: seq<Action>, b: nat, i: nat)
    requires Run(c, run, acts) && Life(acts, b, i) && run[b].node.snaps.Keys != {}
    ensures run[i].returned == NotYet
    decreases i
  {
    if b == i {
      NotYetReturned(c, run, acts, b);
    } else {
      NeverReturns(c, run, acts, b, i - 1);
      FilesPersist(c, run, acts, b, i - 1);
      ReturnAt(c, run, acts, i - 1);
    }
  }

  lemma NoFileStart(c: Config, run: seq<State>, acts: seq<Action>, b: nat)
    requires IsLog(c.log) && Run(c, run, acts) && Life(acts, b, b) && run[b].node.snaps.Keys == {}
    ensures run[b].node.applied == 0
  {
    if b > 0 {
      assert StepAt(c, run, acts, b - 1);
    }
  }

  /** Before any load, in a process that starts without a file. */
  lemma UnloadedView(c: Config, run: seq<State>, acts: seq<Action>, b: nat, i: nat)
    requires IsLog(c.log) && Run(c, run, acts) && Life(acts, b, i) && NothingToLoad(run[i])
    requires NoLoad(run, acts, b, i) && run[b].node.snaps.Keys == {}
    ensures run[i].node.applied <= |c.log| && View(run[i]) == Fold(c.log[..run[i].node.applied])
  {
    NoFileStart(c, run, acts, b);
    MapBeforeLoad(c, run, acts, b, i);
    assert c.log[..0] == [];
    OntoFold(c.log, 0, run[i].node.applied);
  }

  /** A nil that finds no file comes with the fold through the last replayed entry. */
  lemma MapAtReturn(c: Config, run: seq<State>, acts: seq<Action>, b: nat, k: nat)
    requires IsLog(c.log) && Run(c, run, acts) && Life(acts, b, k) && run[k].loop != Down
    requires run[k].consumer == Holding(Nil) && run[k].node.snaps.Keys == {}
    ensures run[k].node.last <= |c.log| && run[k].kv == Fold(c.log[..run[k].node.last])
  {
    NoFilesBefore(c, run, acts, b, k);
    UnloadedView(c, run, acts, b, k);
    var t := WhoHanded(c, run, acts, b, k);
    Holds(c, run, acts, t, k);
    LastStays(c, run, acts, t, k);
    HandedAtLast(c, run, acts, t);
    SameFold(c.log, run[t + 1].node.applied, run[t + 1].node.applied, run[k].node.applied);
  }

  lemma NoFilesBefore(c: Config, run: seq<State>, acts: seq<Action>, b: nat, k: nat)
    requires Run(c, run, acts) && Life(acts, b, k) && run[k].node.snaps.Keys == {}
    ensures NoLoad(run, acts, b, k) && forall x :: b <= x <= k ==> run[x].node.snaps.Keys == {}
  {
    forall x | b <= x <= k
      ensures run[x].node.snaps.Keys == {}
    {
      if run[x].node.snaps.Keys != {} {
        FilesPersist(c, run, acts, x, k);
        assert false;
      }
    }
  }

  lemma HandedAtLast(c: Config, run: seq<State>, acts: seq<Action>, t: nat)
    requires IsLog(c.log) && Run(c, run, acts) && t < |acts| && HandsNil(acts[t]) && run[t].loop != Down
    requires run[t + 1].node.snaps.Keys == {}
    ensures run[t + 1].node.applied == run[t].node.last
  {
    RunInv(c, run, acts, t);
    assert StepAt(c, run, acts, t);
  }

  /** Whenever newKVStore has returned, it has done so with the fold through the last replayed entry. */
  lemma {:induction false} ReturnsRight(c: Config, run: seq<State>, acts: seq<Action>, b: nat, i: nat)
    requires IsLog(c.log) && Run(c, run, acts) && Life(acts, b, i)
    ensures run[i].returned.With? ==>
              run[i].node.last <= |c.log| && run[i].returned.kv == Fold(c.log[..run[i].node.last])
    decreases i
  {
    if b == i {
      NotYetReturned(c, run, acts, b);
    } else {
      ReturnsRight(c, run, acts, b, i - 1);
      ReturnAt(c, run, acts, i - 1);
      if run[i].returned != run[i - 1].returned {
        MapAtReturn(c, run, acts, b, i - 1);
      }
    }
  }

  // ---------------------------------------------------------------- a node's own snapshots

  /** The message that the consumer holds, if any, would not change its map. */
  ghost predicate Settled(s: State) {
    match s.consumer
    case Holding(Data(p)) => p.Put? ==> p.key in s.kv && s.kv[p.key] == p.value
    case Holding(Nil) => s.node.snaps.Keys == {} || Newest(s.node) == s.kv
    case _ => true
  }

  lemma SamePut(kv: Store, k: Text, v: Text)
    ensures Write(kv, Put(k, v)) == kv <==> k in kv && kv[k] == v
  {
    if k in kv && kv[k] == v {
      assert kv[k := v] == kv;
    }
  }

  lemma SettledView(s: State)
    requires s.consumer != Gone
    ensures Settled(s) <==> View(s) == s.kv
  {
    match s.consumer {
      case Holding(Data(Put(k, v))) => SamePut(s.kv, k, v);
      case _ =>
    }
  }

  /** A put that the consumer holds is the last word on its key. */
  ghost predicate HeldIsLast(c: Config, s: State) {
    s.loop != Down && s.consumer.Holding? && s.consumer.m.Data? && s.consumer.m.payload.Put? ==>
      && s.node.applied <= |c.log|
      && var p := s.consumer.m.payload;
      p.key in Fold(c.log[..s.node.applied]) && Fold(c.log[..s.node.applied])[p.key] == p.value
  }

  lemma HeldPublish(c: Config, s: State, s': State)
    requires IsLog(c.log) && LoopOk(c, s) && HeldIsLast(c, s) && Publishes(s, s')
    ensures HeldIsLast(c, s')
  {
    PendingNext(c, s.node, s.loop.todo);
    FoldNext(c.log, s.node.applied);
  }

  /** Only publishing hands over data, and only publishing moves on while the consumer holds any. */
  lemma DataStays(c: Config, s: State, a: Action, s': State)
    requires Step(c, s, a, s') && a != Publish && s'.loop != Down
    requires s'.consumer.Holding? && s'.consumer.m.Data?
    ensures s.loop != Down && s'.consumer == s.consumer && s'.node.applied == s.node.applied
  {
  }

  lemma HeldStep(c: Config, s: State, a: Action, s': State)
    requires IsLog(c.log) && LoopOk(c, s) && HeldIsLast(c, s) && Step(c, s, a, s')
    ensures HeldIsLast(c, s')
  {
    if a == Publish {
      HeldPublish(c, s, s');
    } else if s'.loop != Down && s'.consumer.Holding? && s'.consumer.m.Data? {
      DataStays(c, s, a, s');
    }
  }

  lemma {:induction false} HeldRun(c: Config, run: seq<State>, acts: seq<Action>, i: nat)
    requires IsLog(c.log) && Run(c, run, acts) && i < |run|
    ensures HeldIsLast(c, run[i])
  {
    if i > 0 {
      HeldRun(c, run, acts, i - 1);
      RunInv(c, run, acts, i - 1);
      assert StepAt(c, run, acts, i - 1);
      HeldStep(c, run[i - 1], acts[i - 1], run[i]);
    }
  }

  /** In every process, a snapshot taken with no nil about to load a file is right exactly when the consumer is settled
      and the map is right. */
  lemma SnapshotRightIff(c: Config, run: seq<State>, acts: seq<Action>, i: nat, data: Store, s': State)
    requires IsLog(c.log) && ValidLog(c.log) && Run(c, run, acts) && i < |run|
    requires TakesSnapshot(run[i], data, s') && NothingToLoad(run[i])
    ensures run[i].node.applied <= |c.log|
    ensures data == Fold(c.log[..run[i].node.applied]) <==>
            Settled(run[i]) && View(run[i]) == Fold(c.log[..run[i].node.applied])
  {
    RunInv(c, run, acts, i);
    HeldRun(c, run, acts, i);
    ExactImage(run[i].kv, data);
    SettledView(run[i]);
  }

  /** Before the first load: exactly when the consumer is settled and every key from before the start has been
      written again. */
  lemma SnapshotBeforeLoad(c: Config, run: seq<State>, acts: seq<Action>, b: nat, i: nat, data: Store, s': State)
    requires IsLog(c.log) && ValidLog(c.log) && Run(c, run, acts) && Life(acts, b, i) && NoLoad(run, acts, b, i)
    requires TakesSnapshot(run[i], data, s') && NothingToLoad(run[i])
    ensures run[b].node.applied <= run[i].node.applied <= |c.log|
    ensures data == Fold(c.log[..run[i].node.applied]) <==>
            Settled(run[i]) && K.Rewritten(c.log, run[b].node.applied, run[i].node.applied)
  {
    MapBeforeLoad(c, run, acts, b, i);
    SnapshotRightIff(c, run, acts, i, data, s');
  }

  /** After a load: exactly when the consumer is settled and what lies between the file and the nil is redundant. */
  lemma SnapshotAfterLoad(
      c: Config, run: seq<State>, acts: seq<Action>, t: nat, j: nat, i: nat, m: nat, data: Store, s': State)
    requires IsLog(c.log) && ValidLog(c.log) && Run(c, run, acts) && i <= |acts| && LastLoad(run, acts, t, j, i)
    requires m <= run[t + 1].node.applied && m <= |c.log| && Newest(run[j].node) == Fold(c.log[..m])
    requires TakesSnapshot(run[i], data, s')
    ensures run[t + 1].node.applied <= run[i].node.applied <= |c.log|
    ensures data == Fold(c.log[..run[i].node.applied]) <==>
            Settled(run[i]) && K.Redundant(c.log, m, run[t + 1].node.applied, run[i].node.applied)
  {
    NoNilSince(c, run, acts, t, j, i);
    RightAfterLoad(c, run, acts, t, j, i, m);
    SnapshotRightIff(c, run, acts, i, data, s');
  }

  /** With a nil on its way the snapshot is the map from before the nil. If that was right, the snapshot is right
      exactly when the entries since are redundant: always behind a replay, not always for a received snapshot. */
  lemma SnapshotWithNilHeld(
      c: Config, run: seq<State>, acts: seq<Action>, t: nat, i: nat, data: Store, s': State)
    requires IsLog(c.log) && ValidLog(c.log) && Run(c, run, acts) && i <= |acts| && HeldSince(run, acts, t, i)
    requires TakesSnapshot(run[i], data, s')
    ensures data == View(run[t]) && run[t].node.applied <= run[i].node.applied <= |c.log|
    ensures View(run[t]) == Fold(c.log[..run[t].node.applied]) ==>
              (data == Fold(c.log[..run[i].node.applied]) <==>
               K.Redundant(c.log, run[t].node.applied, run[i].node.applied, run[i].node.applied))
  {
    RunInv(c, run, acts, i);
    Holds(c, run, acts, t, i);
    ExactImage(run[i].kv, data);
    var from, to := run[t].node.applied, run[i].node.applied;
    K.RedundantIff(c.log, from, to, to);
    assert c.log[to..to] == [];
  }
}
