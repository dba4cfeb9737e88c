/** A probe round step by step. The round holds the lock only at its beginning and its end, and shares the array of
    servers, so failures of other threads can come in between (jojo.go). */
module ProbeRounds {
  import opened Upstreams

  /** A round is about to look at server i, or is waiting for its answer; `listed` are the servers found alive. */
  datatype Round = Idle | At(i: nat, listed: seq<string>) | Asking(i: nat, listed: seq<string>)

  datatype State = State(pool: Pool, round: Round)

  datatype Step = Failure(addr: string) | Restore | Start | Look | Answer(up: bool) | End

  predicate Enabled(s: State, a: Step) {
    match a
    case Failure(_) => true
    case Restore => true
    case Start => s.round.Idle?
    case Look => s.round.At? && s.round.i < |s.pool.servers|
    case Answer(_) => s.round.Asking? && s.round.i < |s.pool.servers|
    case End => s.round.At? && s.round.i >= |s.pool.servers|
  }

  function Do(s: State, max: nat, a: Step): State
    requires Enabled(s, a)
  {
    match a
    case Failure(addr) => s.(pool := Failed(s.pool, max, addr))
    case Restore => s.(pool := Reset(s.pool))
    case Start => s.(round := At(0, []))
    case Look =>
      var server := s.pool.servers[s.round.i];
      if Assumed(server) then s.(round := At(s.round.i + 1, s.round.listed + [server.addr]))
      else s.(round := Asking(s.round.i, s.round.listed))
    case Answer(up) =>
      var addr := s.pool.servers[s.round.i].addr;
      if up then State(s.pool.(servers := s.pool.servers[s.round.i := Server(addr, 0, false)]),
                       At(s.round.i + 1, s.round.listed + [addr]))
      else s.(round := At(s.round.i + 1, s.round.listed))
    case End => State(s.pool.(live := s.round.listed), Idle)
  }

  ghost predicate StepAt(run: seq<State>, acts: seq<Step>, max: nat, i: nat)
    requires |run| == |acts| + 1 && i < |acts|
  {
    Enabled(run[i], acts[i]) && run[i + 1] == Do(run[i], max, acts[i])
  }

  ghost predicate Run(run: seq<State>, acts: seq<Step>, addrs: seq<string>, max: nat) {
    && |run| == |acts| + 1
    && run[0] == State(Initial(addrs), Idle)
    && forall i {:trigger StepAt(run, acts, max, i)} :: 0 <= i < |acts| ==> StepAt(run, acts, max, i)
  }

  /** An order-keeping sublist of the addresses of all servers, online or not. */
  ghost predicate Known(live: seq<string>, servers: seq<Server>) {
    Sublist(live, Fresh(servers))
  }

  /** What holds even in the middle of a round. */
  ghost predicate Inv(s: State, max: nat) {
    && Distinct(s.pool.servers) && Counted(s.pool.servers, max) && Known(s.pool.live, s.pool.servers)
    && (!s.round.Idle? ==>
          s.round.i <= |s.pool.servers| && Known(s.round.listed, s.pool.servers[..s.round.i]))
  }

  /** The addresses, and with them what is known, never change. */
  lemma SameKnown(live: seq<string>, a: seq<Server>, b: seq<Server>)
    requires |a| == |b| && Known(live, a) && forall i :: 0 <= i < |a| ==> a[i].addr == b[i].addr
    ensures Known(live, b)
  {
    SublistStable(live, Fresh(a), Fresh(b));
  }

  lemma SameAddresses(p: Pool, max: nat, addr: string)
    ensures var q := Failed(p, max, addr);
            |q.servers| == |p.servers| && forall i :: 0 <= i < |p.servers| ==> q.servers[i].addr == p.servers[i].addr
  {
  }

  /** Unlike the whole invariant, counting does not rest on the live list being right. */
  lemma FailureCounts(p: Pool, max: nat, addr: string)
    requires Distinct(p.servers) && Counted(p.servers, max) && Known(p.live, p.servers) && |p.servers| >= 2 && max >= 1
    ensures var q := Failed(p, max, addr);
            Distinct(q.servers) && Counted(q.servers, max) && Known(q.live, q.servers)
  {
    var i := Find(p.servers, addr);
    var servers := Bump(p.servers, i);
    var q := Failed(p, max, addr);
    SameAddresses(p, max, addr);
    if i < |p.servers| && (p.servers[i].offline || servers[i].failures < max) {
      SameKnown(p.live, p.servers, q.servers);
    } else if |p.live| <= 1 {
      FreshInv(servers, max);
      SublistStable(q.live, q.servers, Fresh(q.servers));
    } else {
      OfflineCounted(p.servers, max, addr, i);
      OnlineIsSublist(servers, addr);
      SublistStable(q.live, q.servers, Fresh(q.servers));
    }
  }

  lemma ResetCounts(p: Pool, max: nat)
    requires Distinct(p.servers) && Counted(p.servers, max) && Known(p.live, p.servers) && max >= 1
    ensures var q := Reset(p);
            && Distinct(q.servers) && Counted(q.servers, max) && Known(q.live, q.servers)
            && |q.servers| == |p.servers| && forall i :: 0 <= i < |p.servers| ==> q.servers[i].addr == p.servers[i].addr
  {
    FreshInv(p.servers, max);
    var q := Reset(p);
    if |p.servers| != |p.live| {
      SublistStable(q.live, q.servers, Fresh(q.servers));
    }
  }

  lemma KnownGrows(listed: seq<string>, servers: seq<Server>, i: nat)
    requires i < |servers| && Known(listed, servers[..i])
    ensures Known(listed, servers[..i + 1]) && Known(listed + [servers[i].addr], servers[..i + 1])
  {
    var all := Fresh(servers[..i + 1]);
    assert all[..i] == Fresh(servers[..i]);
    assert (listed + [servers[i].addr])[..|listed|] == listed;
  }

  /** The pool changes under a round, which goes on where it was. */
  lemma RoundSurvives(s: State, max: nat, q: Pool)
    requires Inv(s, max) && Distinct(q.servers) && Counted(q.servers, max) && Known(q.live, q.servers)
    requires |q.servers| == |s.pool.servers|
    requires forall i :: 0 <= i < |q.servers| ==> q.servers[i].addr == s.pool.servers[i].addr
    ensures Inv(s.(pool := q), max)
  {
    if !s.round.Idle? {
      SameKnown(s.round.listed, s.pool.servers[..s.round.i], q.servers[..s.round.i]);
    }
  }

  lemma AnswerKeeps(s: State, max: nat)
    requires Inv(s, max) && max >= 1 && Enabled(s, Answer(true))
    ensures Inv(Do(s, max, Answer(true)), max)
  {
    var i := s.round.i;
    var servers := s.pool.servers[i := Server(s.pool.servers[i].addr, 0, false)];
    SameKnown(s.pool.live, s.pool.servers, servers);
    assert servers[..i] == s.pool.servers[..i];
    KnownGrows(s.round.listed, servers, i);
  }

  lemma StepKeeps(s: State, max: nat, a: Step)
    requires Inv(s, max) && |s.pool.servers| >= 2 && max >= 1 && Enabled(s, a)
    ensures Inv(Do(s, max, a), max) && |Do(s, max, a).pool.servers| == |s.pool.servers|
  {
    match a {
      case Failure(addr) =>
        FailureCounts(s.pool, max, addr);
        SameAddresses(s.pool, max, addr);
        RoundSurvives(s, max, Failed(s.pool, max, addr));
      case Restore =>
        ResetCounts(s.pool, max);
        RoundSurvives(s, max, Reset(s.pool));
      case Start =>
      case Look => KnownGrows(s.round.listed, s.pool.servers, s.round.i);
      case Answer(up) =>
        if up {
          AnswerKeeps(s, max);
        } else {
          KnownGrows(s.round.listed, s.pool.servers, s.round.i);
        }
      case End => assert s.pool.servers[..s.round.i] == s.pool.servers;
    }
  }

  /** In every interleaving of probe steps with failures and resets, a server is offline exactly when its failure
      count is at the maximum, and the live list keeps the order of the servers. */
  lemma {:induction false} EveryRunCounts(run: seq<State>, acts: seq<Step>, addrs: seq<string>, max: nat, i: nat)
    requires Run(run, acts, addrs, max) && i < |run| && DistinctAddresses(addrs) && |addrs| >= 2 && max >= 1
    ensures Inv(run[i], max) && |run[i].pool.servers| == |addrs|
  {
    if i == 0 {
      InitialInv(addrs, max);
      var p := Initial(addrs);
      SublistStable(p.live, p.servers, Fresh(p.servers));
    } else {
      EveryRunCounts(run, acts, addrs, max, i - 1);
      assert StepAt(run, acts, max, i - 1);
      StepKeeps(run[i - 1], max, acts[i - 1]);
    }
  }

  // ---------------------------------------------------------------- the end of a round

  lemma {:induction false} OnlineOnes(live: seq<string>, servers: seq<Server>)
    requires Known(live, servers)
    requires forall i :: 0 <= i < |servers| && servers[i].addr in live ==> !servers[i].offline
    ensures Sublist(live, servers)
  {
    if servers != [] {
      var n := |servers| - 1;
      assert Fresh(servers)[..n] == Fresh(servers[..n]);
      if Known(live, servers[..n]) {
        OnlineOnes(live, servers[..n]);
      } else {
        assert live[|live| - 1] in live;
        OnlineOnes(live[..|live| - 1], servers[..n]);
      }
    }
  }

  /** The live list that a round leaves behind holds online servers only, if all that it has listed are online. */
  lemma EndState(run: seq<State>, acts: seq<Step>, addrs: seq<string>, max: nat, e: nat)
    requires Run(run, acts, addrs, max) && e < |acts| && acts[e] == End
    requires DistinctAddresses(addrs) && |addrs| >= 2 && max >= 1
    ensures |run[e].pool.servers| == |addrs| && !run[e].round.Idle?
    ensures Sublist(run[e + 1].pool.live, run[e + 1].pool.servers) <==>
            forall k :: 0 <= k < |addrs| && addrs[k] in run[e].round.listed ==> !run[e].pool.servers[k].offline
  {
    EveryRunCounts(run, acts, addrs, max, e);
    Names(run, acts, addrs, max, e);
    assert StepAt(run, acts, max, e);
    var servers := run[e].pool.servers;
    var listed := run[e].round.listed;
    assert servers[..run[e].round.i] == servers;
    if Sublist(listed, servers) {
      SublistLength(listed, servers);
    }
    if forall k :: 0 <= k < |addrs| && addrs[k] in listed ==> !servers[k].offline {
      OnlineOnes(listed, servers);
    }
  }

  lemma {:induction false} Names(run: seq<State>, acts: seq<Step>, addrs: seq<string>, max: nat, i: nat)
    requires Run(run, acts, addrs, max) && i < |run|
    ensures |run[i].pool.servers| == |addrs|
    ensures forall k :: 0 <= k < |addrs| ==> run[i].pool.servers[k].addr == addrs[k]
  {
    if i > 0 {
      Names(run, acts, addrs, max, i - 1);
      assert StepAt(run, acts, max, i - 1);
      if acts[i - 1].Failure? {
        SameAddresses(run[i - 1].pool, max, acts[i - 1].addr);
      }
    }
  }

  /** The failure takes server k offline: it reaches the maximum while the live list holds two or more. */
  predicate TakesOff(p: Pool, max: nat, a: Step, k: nat) {
    && a.Failure? && k < |p.servers| && p.servers[k].addr == a.addr
    && !p.servers[k].offline && p.servers[k].failures + 1 >= max && |p.live| >= 2
  }

  /** The step brings every server back: a reset, or a failure at the maximum with at most one server live. */
  predicate BringsBack(p: Pool, max: nat, a: Step) {
    match a
    case Restore => |p.servers| != |p.live|
    case Failure(addr) =>
      var i := Find(p.servers, addr);
      && |p.live| <= 1 && |p.servers| != |p.live|
      && (i < |p.servers| ==> !p.servers[i].offline && p.servers[i].failures + 1 >= max)
    case _ => false
  }

  /** The step puts server k on the list of the round. */
  predicate Lists(s: State, a: Step, k: nat) {
    && k < |s.pool.servers| && !s.round.Idle? && s.round.i == k
    && ((a == Look && s.round.At? && !s.pool.servers[k].offline && s.pool.servers[k].failures > 0) ||
        (a == Answer(true) && s.round.Asking?))
  }

  /** A round asks exactly the servers that are offline or have no failures. */
  lemma LookAsks(s: State, max: nat)
    requires Enabled(s, Look)
    ensures var server, t := s.pool.servers[s.round.i], Do(s, max, Look);
            && (t.round.Asking? <==> server.offline || server.failures == 0)
            && t.round.i == (if t.round.Asking? then s.round.i else s.round.i + 1) && t.pool == s.pool
  {
  }

  lemma FindAt(servers: seq<Server>, k: nat)
    requires Distinct(servers) && k < |servers|
    ensures Find(servers, servers[k].addr) == k
  {
  }

  /** What a step does to the mark of one server. */
  lemma OfflineAfter(s: State, max: nat, a: Step, k: nat)
    requires Distinct(s.pool.servers) && Enabled(s, a) && k < |s.pool.servers|
    requires a.Answer? ==> s.round.i != k
    ensures k < |Do(s, max, a).pool.servers|
    ensures Do(s, max, a).pool.servers[k].offline <==>
            TakesOff(s.pool, max, a, k) || (s.pool.servers[k].offline && !BringsBack(s.pool, max, a))
  {
    if a.Failure? {
      SameAddresses(s.pool, max, a.addr);
      if s.pool.servers[k].addr == a.addr {
        FindAt(s.pool.servers, k);
      }
    }
  }

  /** Steps b to e belong to one round, which has not ended. */
  ghost predicate OneRound(acts: seq<Step>, b: nat, e: nat) {
    b < e <= |acts| && acts[b] == Start && forall j :: b < j < e ==> acts[j] != Start && acts[j] != End
  }

  /** A round only moves forward. */
  lemma {:induction false} RoundMovesOn(
      run: seq<State>, acts: seq<Step>, addrs: seq<string>, max: nat, b: nat, t: nat, e: nat)
    requires Run(run, acts, addrs, max) && OneRound(acts, b, e) && b < t <= e
    ensures !run[t].round.Idle? && !run[e].round.Idle? && run[t].round.i <= run[e].round.i
    decreases e
  {
    if b + 1 < e {
      if t == e {
        RoundMovesOn(run, acts, addrs, max, b, e - 1, e - 1);
      } else {
        RoundMovesOn(run, acts, addrs, max, b, t, e - 1);
      }
      assert StepAt(run, acts, max, e - 1);
    } else {
      assert StepAt(run, acts, max, b);
    }
  }

  /** Server k was taken offline between steps t and e, and nothing brought it back. */
  ghost predicate WentOffline(run: seq<State>, acts: seq<Step>, max: nat, t: nat, e: nat, k: nat)
    requires |run| == |acts| + 1 && e <= |acts|
  {
    exists f :: t < f < e && TakesOff(run[f].pool, max, acts[f], k)
                && forall g :: f < g < e ==> !BringsBack(run[g].pool, max, acts[g])
  }

  lemma WentOfflineNext(run: seq<State>, acts: seq<Step>, max: nat, t: nat, e: nat, k: nat)
    requires |run| == |acts| + 1 && t < e < |acts|
    ensures WentOffline(run, acts, max, t, e + 1, k) <==>
            TakesOff(run[e].pool, max, acts[e], k) ||
            (WentOffline(run, acts, max, t, e, k) && !BringsBack(run[e].pool, max, acts[e]))
  {
    if WentOffline(run, acts, max, t, e, k) && !BringsBack(run[e].pool, max, acts[e]) {
      var f :| t < f < e && TakesOff(run[f].pool, max, acts[f], k)
               && forall g :: f < g < e ==> !BringsBack(run[g].pool, max, acts[g]);
      assert forall g :: f < g < e + 1 ==> !BringsBack(run[g].pool, max, acts[g]);
    }
  }

  /** One more step after server k was listed. */
  lemma OfflineNext(run: seq<State>, acts: seq<Step>, addrs: seq<string>, max: nat, b: nat, t: nat, e: nat, k: nat)
    requires Run(run, acts, addrs, max) && OneRound(acts, b, e) && b < t < e < |acts| && Lists(run[t], acts[t], k)
    requires DistinctAddresses(addrs) && |addrs| >= 2 && max >= 1 && k < |run[e].pool.servers|
    ensures k < |run[e + 1].pool.servers|
    ensures run[e + 1].pool.servers[k].offline <==>
            TakesOff(run[e].pool, max, acts[e], k) ||
            (run[e].pool.servers[k].offline && !BringsBack(run[e].pool, max, acts[e]))
  {
    assert StepAt(run, acts, max, t);
    assert StepAt(run, acts, max, e);
    RoundMovesOn(run, acts, addrs, max, b, t + 1, e);
    EveryRunCounts(run, acts, addrs, max, e);
    OfflineAfter(run[e], max, acts[e], k);
  }

  lemma JustListed(run: seq<State>, acts: seq<Step>, addrs: seq<string>, max: nat, t: nat, k: nat)
    requires Run(run, acts, addrs, max) && t < |acts| && Lists(run[t], acts[t], k)
    ensures k < |run[t + 1].pool.servers| && !run[t + 1].pool.servers[k].offline
  {
    assert StepAt(run, acts, max, t);
  }

  /** A listed server is offline later in the round exactly if a failure took it offline since it was listed. */
  lemma {:induction false} OfflineSince(
      run: seq<State>, acts: seq<Step>, addrs: seq<string>, max: nat, b: nat, t: nat, e: nat, k: nat)
    requires Run(run, acts, addrs, max) && OneRound(acts, b, e) && b < t < e && Lists(run[t], acts[t], k)
    requires DistinctAddresses(addrs) && |addrs| >= 2 && max >= 1
    ensures k < |run[e].pool.servers|
    ensures run[e].pool.servers[k].offline <==> WentOffline(run, acts, max, t, e, k)
    decreases e
  {
    if t + 1 == e {
      JustListed(run, acts, addrs, max, t, k);
    } else {
      OfflineSince(run, acts, addrs, max, b, t, e - 1, k);
      OfflineNext(run, acts, addrs, max, b, t, e - 1, k);
      WentOfflineNext(run, acts, max, t, e - 1, k);
    }
  }

  /** The list of a round holds the servers that its steps have put there. */
  lemma {:induction false} ListedIff(
      run: seq<State>, acts: seq<Step>, addrs: seq<string>, max: nat, b: nat, e: nat, k: nat)
    requires Run(run, acts, addrs, max) && OneRound(acts, b, e) && k < |addrs| && DistinctAddresses(addrs)
    ensures !run[e].round.Idle?
    ensures addrs[k] in run[e].round.listed <==> exists t :: b < t < e && Lists(run[t], acts[t], k)
    decreases e
  {
    RoundMovesOn(run, acts, addrs, max, b, e, e);
    if b + 1 == e {
      assert StepAt(run, acts, max, b);
    } else {
      ListedIff(run, acts, addrs, max, b, e - 1, k);
      ListedNext(run, acts, addrs, max, e - 1, k);
    }
  }

  lemma ListedNext(run: seq<State>, acts: seq<Step>, addrs: seq<string>, max: nat, j: nat, k: nat)
    requires Run(run, acts, addrs, max) && j < |acts| && k < |addrs| && DistinctAddresses(addrs)
    requires !run[j].round.Idle? && acts[j] != Start && acts[j] != End
    ensures !run[j + 1].round.Idle?
    ensures addrs[k] in run[j + 1].round.listed <==> addrs[k] in run[j].round.listed || Lists(run[j], acts[j], k)
  {
    Names(run, acts, addrs, max, j);
    assert StepAt(run, acts, max, j);
  }

  /** In every interleaving, the live list that a round leaves behind holds online servers only, exactly if no
      failure has taken a server offline since the round listed it, without everybody being brought back. */
  lemma EndIff(run: seq<State>, acts: seq<Step>, addrs: seq<string>, max: nat, b: nat, e: nat)
    requires Run(run, acts, addrs, max) && e < |acts| && OneRound(acts, b, e) && acts[e] == End
    requires DistinctAddresses(addrs) && |addrs| >= 2 && max >= 1
    ensures Sublist(run[e + 1].pool.live, run[e + 1].pool.servers) <==>
            forall t, k: nat :: b < t < e && Lists(run[t], acts[t], k) ==> !WentOffline(run, acts, max, t, e, k)
  {
    EndState(run, acts, addrs, max, e);
    forall t, k: nat | b < t < e && Lists(run[t], acts[t], k)
      ensures k < |addrs| && addrs[k] in run[e].round.listed
      ensures run[e].pool.servers[k].offline <==> WentOffline(run, acts, max, t, e, k)
    {
      Names(run, acts, addrs, max, t);
      ListedIff(run, acts, addrs, max, b, e, k);
      OfflineSince(run, acts, addrs, max, b, t, e, k);
    }
    forall k | 0 <= k < |addrs| && addrs[k] in run[e].round.listed
      ensures exists t :: b < t < e && Lists(run[t], acts[t], k)
    {
      ListedIff(run, acts, addrs, max, b, e, k);
    }
  }

  /** A failure empties a live list exactly if it takes the last online server offline while the live list,
      out of date, still holds two. */
  lemma FailureEmptiesIff(p: Pool, max: nat, addr: string)
    requires Distinct(p.servers) && Counted(p.servers, max) && |p.servers| >= 2 && max >= 1 && p.live != []
    ensures var i := Find(p.servers, addr);
            Failed(p, max, addr).live == [] <==>
            && |p.live| >= 2
            && (i < |p.servers| ==> !p.servers[i].offline && p.servers[i].failures + 1 >= max)
            && forall j :: 0 <= j < |p.servers| && p.servers[j].addr != addr ==> p.servers[j].offline
  {
    var i := Find(p.servers, addr);
    var servers := Bump(p.servers, i);
    AddressesLength(servers);
    NoneOnline(servers, addr);
    assert forall j :: 0 <= j < |servers| ==>
             servers[j].addr == p.servers[j].addr && servers[j].offline == p.servers[j].offline;
  }

  lemma {:induction false} NoneOnline(servers: seq<Server>, addr: string)
    ensures OnlineBut(servers, addr) == [] <==>
            forall j :: 0 <= j < |servers| && servers[j].addr != addr ==> servers[j].offline
  {
    if servers != [] {
      NoneOnline(servers[..|servers| - 1], addr);
    }
  }

  lemma FailFirst(a: string, b: string)
    requires a != b
    ensures Failed(Pool([Server(a, 0, false), Server(b, 0, false)], [a, b]), 1, a) ==
            Pool([Server(a, 1, true), Server(b, 0, false)], [b])
  {
    var before := [Server(a, 0, false), Server(b, 0, false)];
    var servers := [Server(a, 1, false), Server(b, 0, false)];
    assert Find(before, a) == 0 && Bump(before, 0) == servers;
    assert servers[..1] == [servers[0]] && [servers[0]][..0] == [];
    assert OnlineBut([servers[0]], a) == [];
    assert TakeOffline(servers, a) == [Server(a, 1, true), Server(b, 0, false)];
  }

  lemma FailSecond(a: string, b: string)
    requires a != b
    ensures Failed(Pool([Server(a, 1, true), Server(b, 0, false)], [a, b]), 1, b) ==
            Pool([Server(a, 1, true), Server(b, 1, true)], [])
  {
    var before := [Server(a, 1, true), Server(b, 0, false)];
    var servers := [Server(a, 1, true), Server(b, 1, false)];
    assert before[1..][0] == before[1];
    assert Find(before[1..], b) == 0;
    assert Find(before, b) == 1 && Bump(before, 1) == servers;
    assert servers[..1] == [servers[0]] && [servers[0]][..0] == [];
    assert OnlineBut([servers[0]], b) == [];
    assert TakeOffline(servers, b) == [Server(a, 1, true), Server(b, 1, true)];
  }

  /** Looking at a server without failures and hearing from it. */
  lemma Heard(p: Pool, i: nat, listed: seq<string>)
    requires i < |p.servers| && p.servers[i].failures == 0 && !p.servers[i].offline
    ensures Do(State(p, At(i, listed)), 1, Look) == State(p, Asking(i, listed))
    ensures Do(State(p, Asking(i, listed)), 1, Answer(true)) == State(p, At(i + 1, listed + [p.servers[i].addr]))
  {
    assert p.servers[i := Server(p.servers[i].addr, 0, false)] == p.servers;
  }

  lemma Extend(run: seq<State>, acts: seq<Step>, addrs: seq<string>, max: nat, a: Step)
    returns (run': seq<State>, acts': seq<Step>)
    requires Run(run, acts, addrs, max) && Enabled(run[|acts|], a)
    ensures Run(run', acts', addrs, max) && acts' == acts + [a] && run' == run + [Do(run[|acts|], max, a)]
  {
    run', acts' := run + [Do(run[|acts|], max, a)], acts + [a];
    forall i | 0 <= i < |acts'|
      ensures StepAt(run', acts', max, i)
    {
      if i < |acts| {
        assert StepAt(run, acts, max, i);
      }
    }
  }

  /** A round that has heard from the first of two servers when that server fails. */
  lemma FailsBehindRound(a: string, b: string) returns (run: seq<State>, acts: seq<Step>)
    requires a != b
    ensures Run(run, acts, [a, b], 1)
    ensures run[|acts|] == State(Pool([Server(a, 1, true), Server(b, 0, false)], [b]), At(1, [a]))
  {
    var p := Pool([Server(a, 0, false), Server(b, 0, false)], [a, b]);
    assert Initial([a, b]).servers == p.servers;
    run, acts := Extend([State(p, Idle)], [], [a, b], 1, Start);
    Heard(p, 0, []);
    run, acts := Extend(run, acts, [a, b], 1, Look);
    run, acts := Extend(run, acts, [a, b], 1, Answer(true));
    assert [] + [a] == [a];
    FailFirst(a, b);
    run, acts := Extend(run, acts, [a, b], 1, Failure(a));
  }

  /** A server fails while the round is still busy with the next one: the round brings it back into the live list,
      and a failure of the other one then empties the list. */
  lemma RaceExample(a: string, b: string) returns (run: seq<State>, acts: seq<Step>)
    requires a != b
    ensures Run(run, acts, [a, b], 1)
    ensures |acts| >= 2 && acts[|acts| - 2] == End && acts[|acts| - 1] == Failure(b)
    ensures run[|acts| - 1].pool == Pool([Server(a, 1, true), Server(b, 0, false)], [a, b])
    ensures run[|acts|].pool.live == []
  {
    run, acts := FailsBehindRound(a, b);
    Heard(run[|acts|].pool, 1, [a]);
    run, acts := Extend(run, acts, [a, b], 1, Look);
    run, acts := Extend(run, acts, [a, b], 1, Answer(true));
    assert [a] + [b] == [a, b];
    run, acts := Extend(run, acts, [a, b], 1, End);
    FailSecond(a, b);
    run, acts := Extend(run, acts, [a, b], 1, Failure(b));
  }

  // ---------------------------------------------------------------- what one step does to one server

  /** The step starts counting anew for server k. */
  predicate Clears(s: State, max: nat, a: Step, k: nat) {
    BringsBack(s.pool, max, a) || (a == Answer(true) && s.round.Asking? && s.round.i == k)
  }

  /** The step is a failure of server k while it is online. */
  predicate CountsUp(p: Pool, a: Step, k: nat) {
    a.Failure? && k < |p.servers| && p.servers[k].addr == a.addr && !p.servers[k].offline
  }

  lemma FailuresAfter(s: State, max: nat, a: Step, k: nat)
    requires Distinct(s.pool.servers) && Enabled(s, a) && k < |s.pool.servers|
    ensures var t := Do(s, max, a).pool;
            && k < |t.servers|
            && t.servers[k].failures ==
               if Clears(s, max, a, k) then 0
               else if CountsUp(s.pool, a, k) then s.pool.servers[k].failures + 1
               else s.pool.servers[k].failures
  {
    if a.Failure? {
      SameAddresses(s.pool, max, a.addr);
      if s.pool.servers[k].addr == a.addr {
        FindAt(s.pool.servers, k);
      }
    }
  }

  /** The failures of server k since it was last cleared. */
  ghost function Tally(run: seq<State>, acts: seq<Step>, max: nat, i: nat, k: nat): nat
    requires |run| == |acts| + 1 && i <= |acts|
  {
    if i == 0 || Clears(run[i - 1], max, acts[i - 1], k) then 0
    else Tally(run, acts, max, i - 1, k) + if CountsUp(run[i - 1].pool, acts[i - 1], k) then 1 else 0
  }

  /** In every interleaving a server's count is the number of its failures since everybody was brought back or it
      answered a probe, and it is offline exactly when that is the maximum. */
  lemma {:induction false} CountIsHistory(
      run: seq<State>, acts: seq<Step>, addrs: seq<string>, max: nat, i: nat, k: nat)
    requires Run(run, acts, addrs, max) && i < |run| && DistinctAddresses(addrs) && |addrs| >= 2 && max >= 1
    requires k < |addrs|
    ensures k < |run[i].pool.servers| && run[i].pool.servers[k].failures == Tally(run, acts, max, i, k)
    ensures run[i].pool.servers[k].offline <==> Tally(run, acts, max, i, k) == max
  {
    EveryRunCounts(run, acts, addrs, max, i);
    if i > 0 {
      CountIsHistory(run, acts, addrs, max, i - 1, k);
      EveryRunCounts(run, acts, addrs, max, i - 1);
      assert StepAt(run, acts, max, i - 1);
      FailuresAfter(run[i - 1], max, acts[i - 1], k);
    }
  }

  /** The failure makes a new live list: the server, if there is one, reaches the maximum with two or more live. */
  predicate Relists(p: Pool, max: nat, addr: string) {
    var i := Find(p.servers, addr);
    |p.live| >= 2 && (i < |p.servers| ==> !p.servers[i].offline && p.servers[i].failures + 1 >= max)
  }

  /** Which servers are live after a step. */
  lemma LiveAfter(s: State, max: nat, a: Step, k: nat)
    requires Distinct(s.pool.servers) && Enabled(s, a) && k < |s.pool.servers|
    ensures var x := s.pool.servers[k];
            x.addr in Do(s, max, a).pool.live <==>
            if BringsBack(s.pool, max, a) then true
            else if a.Failure? && Relists(s.pool, max, a.addr) then x.addr != a.addr && !x.offline
            else if a == End then x.addr in s.round.listed
            else x.addr in s.pool.live
  {
    var servers := s.pool.servers;
    AddressesLength(servers);
    if a.Failure? {
      var bumped := Bump(servers, Find(servers, a.addr));
      assert bumped[k].addr == servers[k].addr && bumped[k].offline == servers[k].offline;
      AddressesLength(bumped);
      OnlineIff(bumped, a.addr, k);
    }
    assert Addresses(servers)[k] == servers[k].addr;
  }

  lemma OnlineIff(servers: seq<Server>, addr: string, k: nat)
    requires Distinct(servers) && k < |servers|
    ensures servers[k].addr in OnlineBut(servers, addr) <==> servers[k].addr != addr && !servers[k].offline
  {
    OnlineIsSublist(servers, addr);
    SublistLength(OnlineBut(servers, addr), TakeOffline(servers, addr));
  }

  // ---------------------------------------------------------------- a round that nothing interrupts

  /** The rest of a round without anything in between. */
  function Uninterrupted(s: State, max: nat, up: seq<bool>): State
    requires s.round.At? && s.round.i <= |s.pool.servers| == |up|
    decreases |s.pool.servers| - s.round.i
  {
    if s.round.i == |s.pool.servers| then Do(s, max, End)
    else
      var t := Do(s, max, Look);
      Uninterrupted(if t.round.Asking? then Do(t, max, Answer(up[s.round.i])) else t, max, up)
  }

  lemma NextProbed(servers: seq<Server>, up: seq<bool>, i: nat)
    requires i < |servers| == |up|
    ensures var now := Probed(servers[..i], up[..i]) + servers[i..];
            Probed(servers[..i + 1], up[..i + 1]) + servers[i + 1..] ==
            if !Assumed(servers[i]) && up[i] then now[i := Server(servers[i].addr, 0, false)] else now
  {
  }

  lemma {:induction false} RestOfRound(p: Pool, max: nat, up: seq<bool>, s: State)
    requires |up| == |p.servers| && s.round.At? && s.round.i <= |p.servers|
    requires s.pool == Pool(Probed(p.servers[..s.round.i], up[..s.round.i]) + p.servers[s.round.i..], p.live)
    requires s.round.listed == Alive(p.servers[..s.round.i], up[..s.round.i])
    ensures Uninterrupted(s, max, up) == State(Probe(p, up), Idle)
    decreases |p.servers| - s.round.i
  {
    var i := s.round.i;
    if i == |p.servers| {
      assert p.servers[..i] == p.servers && up[..i] == up;
      assert s.pool.servers == Probed(p.servers, up);
    } else {
      var t := Do(s, max, Look);
      var next := if t.round.Asking? then Do(t, max, Answer(up[i])) else t;
      assert p.servers[..i + 1][..i] == p.servers[..i] && up[..i + 1][..i] == up[..i];
      NextProbed(p.servers, up, i);
      assert s.pool.servers[i] == p.servers[i];
      RestOfRound(p, max, up, next);
    }
  }

  /** A round that nothing interrupts is the one-step probe round. */
  lemma RoundRefines(p: Pool, max: nat, up: seq<bool>)
    requires |up| == |p.servers|
    ensures Uninterrupted(Do(State(p, Idle), max, Start), max, up) == State(Probe(p, up), Idle)
  {
    assert p.servers[0..] == p.servers && p.servers[..0] == [] && up[..0] == [];
    var s := Do(State(p, Idle), max, Start);
    assert s.pool.servers == Probed(p.servers[..0], up[..0]) + p.servers[0..];
    RestOfRound(p, max, up, s);
  }
}
