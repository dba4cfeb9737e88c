/** Failover between upstream DNS servers (jojo.go). */
module Upstreams {
  import opened Texts

  datatype Server = Server(addr: string, failures: nat, offline: bool)

  datatype Pool = Pool(servers: seq<Server>, live: seq<string>)

  // ---------------------------------------------------------------- what the operations compute

  function Addresses(servers: seq<Server>): seq<string> {
    if servers == [] then [] else Addresses(servers[..|servers| - 1]) + [servers[|servers| - 1].addr]
  }

  /** The addresses of the servers that are online, other than one. */
  function OnlineBut(servers: seq<Server>, addr: string): seq<string> {
    if servers == [] then []
    else
      var s := servers[|servers| - 1];
      OnlineBut(servers[..|servers| - 1], addr) + if s.addr != addr && !s.offline then [s.addr] else []
  }

  function TakeOffline(servers: seq<Server>, addr: string): seq<Server> {
    seq(|servers|, i requires 0 <= i < |servers| =>
      if servers[i].addr == addr then servers[i].(offline := true) else servers[i])
  }

  function Fresh(servers: seq<Server>): seq<Server> {
    seq(|servers|, i requires 0 <= i < |servers| => Server(servers[i].addr, 0, false))
  }

  /** Everything back online, unless everything is live already. */
  function Reset(p: Pool): Pool {
    if |p.servers| == |p.live| then p else Pool(Fresh(p.servers), Addresses(p.servers))
  }

  /** The position of the first server with an address. */
  function Find(servers: seq<Server>, addr: string): (i: nat)
    ensures i <= |servers|
    ensures i < |servers| ==> servers[i].addr == addr
    ensures forall j :: 0 <= j < i ==> servers[j].addr != addr
  {
    if servers == [] || servers[0].addr == addr then 0 else 1 + Find(servers[1..], addr)
  }

  /** One more failure for the server at a position. */
  function Bump(servers: seq<Server>, i: nat): seq<Server> {
    if i < |servers| then servers[i := servers[i].(failures := servers[i].failures + 1)] else servers
  }

  /** What a failed query to a server does. */
  function Failed(p: Pool, max: nat, addr: string): Pool {
    var i := Find(p.servers, addr);
    if i < |p.servers| && p.servers[i].offline then p
    else
      var servers := Bump(p.servers, i);
      if i < |p.servers| && servers[i].failures < max then Pool(servers, p.live)
      else if |p.live| <= 1 then Reset(Pool(servers, p.live))
      else Pool(TakeOffline(servers, addr), OnlineBut(servers, addr))
  }

  /** A server that has failed but is not offline is taken to be alive without asking it. */
  predicate Assumed(s: Server) {
    !s.offline && s.failures > 0
  }

  predicate Answers(s: Server, up: bool) {
    Assumed(s) || up
  }

  function Probed(servers: seq<Server>, up: seq<bool>): seq<Server>
    requires |up| == |servers|
  {
    seq(|servers|, i requires 0 <= i < |servers| =>
      if !Assumed(servers[i]) && up[i] then Server(servers[i].addr, 0, false) else servers[i])
  }

  function Alive(servers: seq<Server>, up: seq<bool>): seq<string>
    requires |up| == |servers|
  {
    if servers == [] then []
    else
      var n := |servers| - 1;
      Alive(servers[..n], up[..n]) + if Answers(servers[n], up[n]) then [servers[n].addr] else []
  }

  /** One probe round; `up[i]` says whether server i answers in time. */
  function Probe(p: Pool, up: seq<bool>): Pool
    requires |up| == |p.servers|
  {
    Pool(Probed(p.servers, up), Alive(p.servers, up))
  }

  // ---------------------------------------------------------------- runs

  datatype Op = Fail(addr: string) | ResetAll | ProbeRound(up: set<string>)

  /** The answers of a probe round, server by server. */
  function Outcomes(servers: seq<Server>, up: set<string>): seq<bool> {
    seq(|servers|, i requires 0 <= i < |servers| => servers[i].addr in up)
  }

  function Apply(p: Pool, max: nat, op: Op): Pool {
    match op
    case Fail(addr) => Failed(p, max, addr)
    case ResetAll => Reset(p)
    case ProbeRound(up) => Probe(p, Outcomes(p.servers, up))
  }

  function Run(p: Pool, max: nat, ops: seq<Op>): Pool {
    if ops == [] then p else Apply(Run(p, max, ops[..|ops| - 1]), max, ops[|ops| - 1])
  }

  function Initial(addrs: seq<string>): Pool {
    Pool(seq(|addrs|, i requires 0 <= i < |addrs| => Server(addrs[i], 0, false)), addrs)
  }

  // ---------------------------------------------------------------- the invariant

  ghost predicate Distinct(servers: seq<Server>) {
    forall i, j :: 0 <= i < j < |servers| ==> servers[i].addr != servers[j].addr
  }

  /** An order-keeping sublist of the addresses of online servers. */
  ghost predicate Sublist(live: seq<string>, servers: seq<Server>) {
    if servers == [] then live == []
    else
      var s := servers[|servers| - 1];
      || Sublist(live, servers[..|servers| - 1])
      || (live != [] && !s.offline && live[|live| - 1] == s.addr
          && Sublist(live[..|live| - 1], servers[..|servers| - 1]))
  }

  /** A server is offline exactly when its failure count equals the maximum, which no count exceeds. */
  ghost predicate Counted(servers: seq<Server>, max: nat) {
    forall i :: 0 <= i < |servers| ==>
      servers[i].failures <= max && (servers[i].offline <==> servers[i].failures == max)
  }

  ghost predicate Inv(p: Pool, max: nat) {
    Distinct(p.servers) && Counted(p.servers, max) && Sublist(p.live, p.servers)
  }

  lemma {:induction false} AddressesLength(servers: seq<Server>)
    ensures |Addresses(servers)| == |servers|
    ensures forall i :: 0 <= i < |servers| ==> Addresses(servers)[i] == servers[i].addr
  {
    if servers != [] {
      AddressesLength(servers[..|servers| - 1]);
    }
  }

  /** Sublists only look at addresses and at who is online. */
  lemma {:induction false} SublistStable(live: seq<string>, a: seq<Server>, b: seq<Server>)
    requires |a| == |b| && Sublist(live, a)
    requires forall i :: 0 <= i < |a| ==> a[i].addr == b[i].addr && (b[i].offline ==> a[i].offline)
    ensures Sublist(live, b)
  {
    if a != [] {
      var n := |a| - 1;
      if Sublist(live, a[..n]) {
        SublistStable(live, a[..n], b[..n]);
      } else {
        SublistStable(live[..|live| - 1], a[..n], b[..n]);
      }
    }
  }

  lemma {:induction false} SublistLength(live: seq<string>, servers: seq<Server>)
    requires Sublist(live, servers)
    ensures |live| <= |servers|
    ensures forall x :: x in live ==> exists i :: 0 <= i < |servers| && servers[i].addr == x && !servers[i].offline
    ensures Distinct(servers) ==> forall i, j :: 0 <= i < j < |live| ==> live[i] != live[j]
  {
    if servers != [] {
      var n := |servers| - 1;
      if Sublist(live, servers[..n]) {
        SublistLength(live, servers[..n]);
      } else {
        var rest := live[..|live| - 1];
        SublistLength(rest, servers[..n]);
        assert live == rest + [servers[n].addr];
        forall x | x in live
          ensures exists i :: 0 <= i < |servers| && servers[i].addr == x && !servers[i].offline
        {
          if x in rest {
            var i :| 0 <= i < n && servers[..n][i].addr == x && !servers[..n][i].offline;
            assert servers[i].addr == x;
          } else {
            assert servers[n].addr == x;
          }
        }
        if Distinct(servers) {
          forall i | 0 <= i < |rest|
            ensures rest[i] != servers[n].addr
          {
            assert rest[i] in rest;
            var k :| 0 <= k < n && servers[..n][k].addr == rest[i] && !servers[..n][k].offline;
            assert servers[k].addr != servers[n].addr;
          }
        }
      }
    }
  }

  lemma {:induction false} AllAreSublist(servers: seq<Server>)
    requires forall i :: 0 <= i < |servers| ==> !servers[i].offline
    ensures Sublist(Addresses(servers), servers)
  {
    if servers != [] {
      AllAreSublist(servers[..|servers| - 1]);
      assert Addresses(servers)[..|servers| - 1] == Addresses(servers[..|servers| - 1]) by {
        AddressesLength(servers[..|servers| - 1]);
      }
      AddressesLength(servers);
    }
  }

  lemma {:induction false} OnlineIsSublist(servers: seq<Server>, addr: string)
    ensures Sublist(OnlineBut(servers, addr), TakeOffline(servers, addr))
    ensures forall i :: 0 <= i < |servers| && servers[i].addr != addr && !servers[i].offline ==>
              servers[i].addr in OnlineBut(servers, addr)
  {
    if servers != [] {
      var n := |servers| - 1;
      OnlineIsSublist(servers[..n], addr);
      assert TakeOffline(servers, addr)[..n] == TakeOffline(servers[..n], addr);
      var l := OnlineBut(servers[..n], addr);
      if servers[n].addr != addr && !servers[n].offline {
        assert (l + [servers[n].addr])[..|l|] == l;
      } else {
        assert OnlineBut(servers, addr) == l;
      }
      forall i | 0 <= i < |servers| && servers[i].addr != addr && !servers[i].offline
        ensures servers[i].addr in OnlineBut(servers, addr)
      {
        if i < n {
          assert servers[..n][i] == servers[i];
        }
      }
    }
  }

  lemma {:induction false} AliveIsSublist(servers: seq<Server>, up: seq<bool>)
    requires |up| == |servers|
    ensures Sublist(Alive(servers, up), Probed(servers, up))
  {
    if servers != [] {
      var n := |servers| - 1;
      AliveIsSublist(servers[..n], up[..n]);
      assert Probed(servers, up)[..n] == Probed(servers[..n], up[..n]);
      var l := Alive(servers[..n], up[..n]);
      if Answers(servers[n], up[n]) {
        assert (l + [servers[n].addr])[..|l|] == l;
      } else {
        assert Alive(servers, up) == l;
      }
    }
  }

  lemma {:induction false} AliveIff(servers: seq<Server>, up: seq<bool>, i: nat)
    requires |up| == |servers| && Distinct(servers) && i < |servers|
    ensures servers[i].addr in Alive(servers, up) <==> (!servers[i].offline && servers[i].failures > 0) || up[i]
  {
    var n := |servers| - 1;
    if i < n {
      AliveIff(servers[..n], up[..n], i);
    } else {
      AliveIsSublist(servers[..n], up[..n]);
      SublistLength(Alive(servers[..n], up[..n]), Probed(servers[..n], up[..n]));
    }
  }

  /** A probe round lists a server that has failed but is not offline without asking it, and leaves it as it is. It
      lists any other one exactly if that one answers, and then clears it. */
  lemma ProbeExact(p: Pool, up: seq<bool>, i: nat)
    requires |up| == |p.servers| && Distinct(p.servers) && i < |p.servers|
    ensures var s, q := p.servers[i], Probe(p, up);
            && |q.servers| == |p.servers|
            && (s.addr in q.live <==> (!s.offline && s.failures > 0) || up[i])
            && q.servers[i] == if (s.offline || s.failures == 0) && up[i] then Server(s.addr, 0, false) else s
  {
    AliveIff(p.servers, up, i);
  }

  lemma FreshInv(servers: seq<Server>, max: nat)
    requires Distinct(servers) && max >= 1
    ensures Inv(Pool(Fresh(servers), Addresses(servers)), max) && |Addresses(servers)| == |servers|
  {
    AllAreSublist(Fresh(servers));
    AddressesLength(servers);
    AddressesLength(Fresh(servers));
    assert Addresses(servers) == Addresses(Fresh(servers));
  }

  lemma ResetKeeps(p: Pool, max: nat)
    requires Inv(p, max) && max >= 1
    ensures Inv(Reset(p), max)
    ensures p.live != [] ==> Reset(p).live != []
  {
    FreshInv(p.servers, max);
    SublistLength(p.live, p.servers);
  }

  /** Taking a server offline leaves another one live if two were live before. */
  lemma OfflineKeeps(p: Pool, addr: string)
    requires Distinct(p.servers) && Sublist(p.live, p.servers) && |p.live| >= 2
    ensures Sublist(OnlineBut(p.servers, addr), TakeOffline(p.servers, addr))
    ensures OnlineBut(p.servers, addr) != []
  {
    OnlineIsSublist(p.servers, addr);
    SublistLength(p.live, p.servers);
    var x := if p.live[0] != addr then p.live[0] else p.live[1];
    assert x in p.live && x != addr;
    var k :| 0 <= k < |p.servers| && p.servers[k].addr == x && !p.servers[k].offline;
  }

  lemma BumpKeeps(p: Pool, max: nat, i: nat)
    requires Inv(p, max) && (i < |p.servers| ==> !p.servers[i].offline)
    ensures Distinct(Bump(p.servers, i)) && Sublist(p.live, Bump(p.servers, i))
    ensures forall j :: 0 <= j < |p.servers| && j != i ==> Bump(p.servers, i)[j] == p.servers[j]
    ensures i < |p.servers| ==> Bump(p.servers, i)[i].failures <= max
  {
    SublistStable(p.live, p.servers, Bump(p.servers, i));
  }

  /** A server that reaches the maximum goes offline, and no other one does. */
  lemma OfflineCounted(servers: seq<Server>, max: nat, addr: string, i: nat)
    requires Counted(servers, max) && Distinct(servers) && i == Find(servers, addr)
    requires i < |servers| ==> !servers[i].offline && servers[i].failures + 1 >= max
    ensures Counted(TakeOffline(Bump(servers, i), addr), max) && Distinct(TakeOffline(Bump(servers, i), addr))
  {
  }

  /** With two servers or more, a failure keeps the invariant and never empties the live list. */
  lemma MarkFailedKeeps(p: Pool, max: nat, addr: string)
    requires Inv(p, max) && |p.servers| >= 2 && max >= 1
    ensures Inv(Failed(p, max, addr), max)
    ensures p.live != [] ==> Failed(p, max, addr).live != []
  {
    var i := Find(p.servers, addr);
    var servers := Bump(p.servers, i);
    if i < |p.servers| && p.servers[i].offline {
    } else {
      BumpKeeps(p, max, i);
      if i < |p.servers| && servers[i].failures < max {
        assert Failed(p, max, addr) == Pool(servers, p.live);
      } else if |p.live| <= 1 {
        FreshInv(servers, max);
        assert Failed(p, max, addr) == Pool(Fresh(servers), Addresses(servers));
      } else {
        OfflineKeeps(Pool(servers, p.live), addr);
        OfflineCounted(p.servers, max, addr, i);
        assert Failed(p, max, addr) == Pool(TakeOffline(servers, addr), OnlineBut(servers, addr));
      }
    }
  }

  lemma ProbeKeeps(p: Pool, max: nat, up: seq<bool>)
    requires Inv(p, max) && |up| == |p.servers| && max >= 1
    ensures Inv(Probe(p, up), max)
  {
    AliveIsSublist(p.servers, up);
  }

  lemma ApplyKeeps(p: Pool, max: nat, op: Op)
    requires Inv(p, max) && |p.servers| >= 2 && max >= 1
    ensures Inv(Apply(p, max, op), max) && |Apply(p, max, op).servers| == |p.servers|
    ensures p.live != [] && Apply(p, max, op).live == [] ==> op.ProbeRound?
  {
    match op {
      case Fail(addr) => MarkFailedKeeps(p, max, addr);
      case ResetAll => ResetKeeps(p, max);
      case ProbeRound(up) => ProbeKeeps(p, max, Outcomes(p.servers, up));
    }
  }

  ghost predicate DistinctAddresses(addrs: seq<string>) {
    forall i, j :: 0 <= i < j < |addrs| ==> addrs[i] != addrs[j]
  }

  lemma InitialInv(addrs: seq<string>, max: nat)
    requires DistinctAddresses(addrs) && max >= 1
    ensures Inv(Initial(addrs), max)
  {
    var servers := Initial(addrs).servers;
    AllAreSublist(servers);
    AddressesLength(servers);
    assert Addresses(servers) == addrs;
  }

  /** Over every sequence of failures, resets and probe rounds the invariant holds. */
  lemma {:induction false} RunKeeps(addrs: seq<string>, max: nat, ops: seq<Op>)
    requires DistinctAddresses(addrs) && |addrs| >= 2 && max >= 1
    ensures Inv(Run(Initial(addrs), max, ops), max) && |Run(Initial(addrs), max, ops).servers| == |addrs|
  {
    if ops == [] {
      InitialInv(addrs, max);
    } else {
      RunKeeps(addrs, max, ops[..|ops| - 1]);
      ApplyKeeps(Run(Initial(addrs), max, ops[..|ops| - 1]), max, ops[|ops| - 1]);
    }
  }

  /** Over every such run only a probe round can turn a non-empty live list empty. */
  lemma OnlyProbesEmpty(addrs: seq<string>, max: nat, ops: seq<Op>, i: nat)
    requires DistinctAddresses(addrs) && |addrs| >= 2 && max >= 1 && i < |ops|
    requires Run(Initial(addrs), max, ops[..i]).live != [] && Run(Initial(addrs), max, ops[..i + 1]).live == []
    ensures ops[i].ProbeRound?
  {
    RunKeeps(addrs, max, ops[..i]);
    assert ops[..i + 1][..i] == ops[..i];
    ApplyKeeps(Run(Initial(addrs), max, ops[..i]), max, ops[i]);
  }

  lemma {:induction false} LoneServerCounts(a: string, max: nat, n: nat)
    ensures Run(Initial([a]), max, seq(n, _ => Fail(a))) == Pool([Server(a, n, false)], [a])
  {
    var ops := seq(n, _ => Fail(a));
    if n == 0 {
      assert Initial([a]).servers == [Server(a, 0, false)];
    } else {
      assert ops[..n - 1] == seq(n - 1, _ => Fail(a));
      LoneServerCounts(a, max, n - 1);
    }
  }

  /** A run after which the count is wrong. */
  lemma Miscounted(addrs: seq<string>, max: nat) returns (ops: seq<Op>)
    requires |addrs| == 1 || (|addrs| >= 1 && max == 0)
    ensures !Counted(Run(Initial(addrs), max, ops).servers, max)
  {
    if max == 0 {
      ops := [];
      assert Initial(addrs).servers[0] == Server(addrs[0], 0, false);
    } else {
      assert addrs == [addrs[0]];
      LoneServerCounts(addrs[0], max, max);
      ops := seq(max, _ => Fail(addrs[0]));
      assert Run(Initial(addrs), max, ops).servers[0] == Server(addrs[0], max, false);
    }
  }

  /** The counting invariant holds over all runs exactly when there are two servers or more and the maximum is
      positive: a lone server is never taken offline and its count runs past the maximum. */
  lemma CountedIff(addrs: seq<string>, max: nat)
    requires DistinctAddresses(addrs) && |addrs| >= 1
    ensures (forall ops: seq<Op> :: Counted(Run(Initial(addrs), max, ops).servers, max)) <==> |addrs| >= 2 && max >= 1
  {
    if |addrs| >= 2 && max >= 1 {
      forall ops: seq<Op>
        ensures Counted(Run(Initial(addrs), max, ops).servers, max)
      {
        RunKeeps(addrs, max, ops);
      }
    } else {
      var ops := Miscounted(addrs, max);
    }
  }

  // ---------------------------------------------------------------- the upstream list itself

  class UpstreamServers {
    const max: nat
    var servers: seq<Server>
    var live: seq<string>

    function Here(): Pool
      reads this
    {
      Pool(servers, live)
    }

    /** The flag is a comma-separated list of addresses; all of them start out live. */
    constructor (config: string, max: nat)
      ensures Here() == Initial(Split(config, ',')) && this.max == max
      ensures live == Split(config, ',') && |servers| == |live|
      ensures forall i :: 0 <= i < |servers| ==> servers[i] == Server(live[i], 0, false)
      ensures DistinctAddresses(Split(config, ',')) && max >= 1 ==> Inv(Here(), max)
    {
      var addrs := Split(config, ',');
      var list, names := [], [];
      for i := 0 to |addrs|
        invariant list == Initial(addrs).servers[..i] && names == addrs[..i]
      {
        list := list + [Server(addrs[i], 0, false)];
        names := names + [addrs[i]];
      }
      servers, live := list, names;
      this.max := max;
      new;
      if DistinctAddresses(addrs) && max >= 1 {
        InitialInv(addrs, max);
      }
    }

    method ResetNoLock()
      modifies this
      ensures Here() == Reset(old(Here()))
      ensures max >= 1 && old(Inv(Here(), max)) ==> Inv(Here(), max) && (old(live) != [] ==> live != [])
    {
      if max >= 1 && Inv(Here(), max) {
        ResetKeeps(Here(), max);
      }
      if |servers| == |live| {
        return;
      }
      var names := [];
      for i := 0 to |servers|
        invariant |servers| == |old(servers)| && live == old(live)
        invariant forall k :: 0 <= k < i ==> servers[k] == Fresh(old(servers))[k]
        invariant forall k :: i <= k < |servers| ==> servers[k] == old(servers)[k]
        invariant names == Addresses(old(servers)[..i])
      {
        assert old(servers)[..i + 1][..i] == old(servers)[..i];
        names := names + [servers[i].addr];
        servers := servers[i := Server(servers[i].addr, 0, false)];
      }
      assert old(servers)[..|servers|] == old(servers);
      live := names;
    }

    method MarkFailed(addr: string)
      modifies this
      ensures Here() == Failed(old(Here()), max, addr)
      ensures max >= 1 && |old(servers)| >= 2 && old(Inv(Here(), max)) ==>
                Inv(Here(), max) && (old(live) != [] ==> live != [])
    {
      if max >= 1 && |servers| >= 2 && Inv(Here(), max) {
        MarkFailedKeeps(Here(), max, addr);
      }
      var i := 0;
      while i < |servers|
        invariant i <= Find(servers, addr) <= |servers|
      {
        if servers[i].addr == addr {
          break;
        }
        i := i + 1;
      }
      if i < |servers| {
        if servers[i].offline {
          return;
        }
        servers := servers[i := servers[i].(failures := servers[i].failures + 1)];
        if servers[i].failures < max {
          return;
        }
      }
      if |live| <= 1 {
        ResetNoLock();
        return;
      }
      Exclude(addr);
    }

    /** Marks one server as offline and lists the others that are online. */
    method Exclude(addr: string)
      modifies this
      ensures servers == TakeOffline(old(servers), addr) && live == OnlineBut(old(servers), addr)
    {
      var names := [];
      for j := 0 to |servers|
        invariant |servers| == |old(servers)|
        invariant forall k :: 0 <= k < j ==> servers[k] == TakeOffline(old(servers), addr)[k]
        invariant forall k :: j <= k < |servers| ==> servers[k] == old(servers)[k]
        invariant names == OnlineBut(old(servers)[..j], addr)
      {
        assert old(servers)[..j + 1][..j] == old(servers)[..j];
        if servers[j].addr == addr {
          servers := servers[j := servers[j].(offline := true)];
        } else if !servers[j].offline {
          names := names + [servers[j].addr];
        }
      }
      assert old(servers)[..|servers|] == old(servers);
      live := names;
    }

    /** The servers are asked one by one; the round is taken as one step. */
    method ProbeAll(up: seq<bool>)
      requires |up| == |servers|
      modifies this
      ensures Here() == Probe(old(Here()), up)
      ensures max >= 1 && old(Inv(Here(), max)) ==> Inv(Here(), max)
    {
      if max >= 1 && Inv(Here(), max) {
        ProbeKeeps(Here(), max, up);
      }
      var names := [];
      for i := 0 to |servers|
        invariant |servers| == |old(servers)| && live == old(live)
        invariant forall k :: 0 <= k < i ==> servers[k] == Probed(old(servers), up)[k]
        invariant forall k :: i <= k < |servers| ==> servers[k] == old(servers)[k]
        invariant names == Alive(old(servers)[..i], up[..i])
      {
        assert old(servers)[..i + 1][..i] == old(servers)[..i] && up[..i + 1][..i] == up[..i];
        if !servers[i].offline && servers[i].failures > 0 {
          names := names + [servers[i].addr];
        } else if up[i] {
          servers := servers[i := Server(servers[i].addr, 0, false)];
          names := names + [servers[i].addr];
        }
      }
      assert old(servers)[..|servers|] == old(servers) && up[..|servers|] == up;
      live := names;
    }
  }
}
