/** The lease table of the DHCP server (dhcp_internal.go), for sections 4.3.1 to 4.3.4 of RFC 2131. */
module LeaseTable {

  const SPACE: int := 0x1_0000_0000

  datatype Lease = Lease(nic: string, expiry: int)

  /** IPv4 addresses are numbers below SPACE; `range` slots are handed out from `start` on. */
  datatype Table = Table(start: nat, range: int, duration: int, leases: map<nat, Lease>)

  /** The address a client asks for: the option or, without it, the client address of the packet. */
  datatype Wanted = Malformed | Address(ip: nat)

  datatype Message =
    | Discover(nic: string, now: int, b: int)
    | Request(nic: string, forUs: bool, wanted: Wanted, now: int)
    | Release(nic: string)  // or Decline, which is treated alike

  datatype Event =
    | Silent
    | Offered(slot: int, nic: string)
    | Acked(slot: int, nic: string)
    | Naked
    | Freed(slot: int, nic: string)

  /** Address arithmetic on 32 bits. */
  function AddressOf(t: Table, slot: int): nat {
    (t.start + slot) % SPACE
  }

  // ---------------------------------------------------------------- finding a free slot

  predicate IsFree(t: Table, now: int, i: int) {
    i !in t.leases || t.leases[i].expiry < now
  }

  /** The first free slot from lo on, below hi; -1 if there is none. */
  function Scan(t: Table, now: int, lo: int, hi: int): (r: int)
    ensures r == -1 || lo <= r < hi
    ensures r != -1 ==> IsFree(t, now, r) && forall i :: lo <= i < r ==> !IsFree(t, now, i)
    ensures r == -1 && lo >= 0 ==> forall i :: lo <= i < hi ==> !IsFree(t, now, i)
    decreases hi - lo
  {
    if lo >= hi then -1
    else if IsFree(t, now, lo) then lo
    else Scan(t, now, lo + 1, hi)
  }

  /** From a random start to the end, then from the beginning to that start. */
  function FreeSlot(t: Table, now: int, b: int): int {
    var r := Scan(t, now, b, t.range);
    if r != -1 then r else Scan(t, now, 0, b)
  }

  /** Whatever the start, the search finds the first free slot from there on, around the range, and fails only on a full
      table. */
  lemma FreeSlotExact(t: Table, now: int, b: int)
    requires 0 <= b < t.range
    ensures FreeSlot(t, now, b) == -1 <==> forall i :: 0 <= i < t.range ==> !IsFree(t, now, i)
    ensures var r := FreeSlot(t, now, b);
            r != -1 ==>
              && 0 <= r < t.range && IsFree(t, now, r)
              && forall i :: 0 <= i < t.range && IsFree(t, now, i) ==> if r >= b then i < b || i >= r else r <= i < b
  {
  }

  // ---------------------------------------------------------------- one message

  ghost predicate Owns(t: Table, nic: string, slot: int) {
    slot in t.leases && t.leases[slot].nic == nic
  }

  /** What a request does: bind or renew if the slot is unbound or the client's own, else refuse. */
  function Answer(t: Table, nic: string, forUs: bool, wanted: Wanted, now: int): (Table, Event) {
    if !forUs then (t, Silent)
    else if wanted.Malformed? || wanted.ip == 0 then (t, Naked)
    else
      var slot := wanted.ip - t.start;
      if 0 <= slot < t.range && (slot !in t.leases || t.leases[slot].nic == nic)
      then (t.(leases := t.leases[slot := Lease(nic, now + t.duration)]), Acked(slot, nic))
      else (t, Naked)
  }

  /** Iteration over the table has no order, so a client with several leases gets or loses any one of them. */
  ghost predicate Step(t: Table, m: Message, t': Table, e: Event) {
    match m
    case Discover(nic, now, b) =>
      && t' == t
      && if exists i :: Owns(t, nic, i) then e.Offered? && e.nic == nic && Owns(t, nic, e.slot)
         else e == if FreeSlot(t, now, b) == -1 then Silent else Offered(FreeSlot(t, now, b), nic)
    case Request(nic, forUs, wanted, now) => (t', e) == Answer(t, nic, forUs, wanted, now)
    case Release(nic) =>
      if exists i :: Owns(t, nic, i)
      then e.Freed? && e.nic == nic && Owns(t, nic, e.slot) && t' == t.(leases := t.leases - {e.slot})
      else t' == t && e == Silent
  }

  ghost predicate Run(ts: seq<Table>, ms: seq<Message>, es: seq<Event>) {
    && |ts| == |ms| + 1 && |es| == |ms|
    && ts[0].leases == map[]
    && forall i :: 0 <= i < |ms| ==> Step(ts[i], ms[i], ts[i + 1], es[i])
  }

  // ---------------------------------------------------------------- runs

  /** Slots stay in range, and the table's parameters never change. */
  lemma {:induction false} SlotsInRange(ts: seq<Table>, ms: seq<Message>, es: seq<Event>, i: nat)
    requires Run(ts, ms, es) && i < |ts|
    ensures ts[i].range == ts[0].range && ts[i].start == ts[0].start && ts[i].duration == ts[0].duration
    ensures forall s :: s in ts[i].leases ==> 0 <= s < ts[i].range
  {
    if i > 0 {
      SlotsInRange(ts, ms, es, i - 1);
      assert Step(ts[i - 1], ms[i - 1], ts[i], es[i - 1]);
    }
  }

  /** An acknowledged client keeps its slot, expiry or not, until it gives the slot up itself. */
  lemma {:induction false} BoundUntilFreed(
      ts: seq<Table>, ms: seq<Message>, es: seq<Event>, i: nat, j: nat, slot: int, nic: string)
    requires Run(ts, ms, es) && i < j <= |ms| && es[i] == Acked(slot, nic)
    requires forall k :: i < k < j ==> es[k] != Freed(slot, nic)
    ensures Owns(ts[j], nic, slot)
  {
    if j == i + 1 {
      assert Step(ts[i], ms[i], ts[j], es[i]);
    } else {
      BoundUntilFreed(ts, ms, es, i, j - 1, slot, nic);
      assert Step(ts[j - 1], ms[j - 1], ts[j], es[j - 1]);
    }
  }

  /** Two acknowledgements of one address to different clients are separated by a release or decline of the first. */
  lemma AcksAreSeparated(
      ts: seq<Table>, ms: seq<Message>, es: seq<Event>, i: nat, j: nat, slot: int, a: string, b: string)
    returns (k: nat)
    requires Run(ts, ms, es) && i < j < |ms| && a != b
    requires es[i] == Acked(slot, a) && es[j] == Acked(slot, b)
    ensures i < k < j && es[k] == Freed(slot, a) && ms[k] == Release(a)
  {
    assert Step(ts[j], ms[j], ts[j + 1], es[j]);
    if forall k :: i < k < j ==> es[k] != Freed(slot, a) {
      BoundUntilFreed(ts, ms, es, i, j, slot, a);
      assert false;
    }
    k :| i < k < j && es[k] == Freed(slot, a);
    assert Step(ts[k], ms[k], ts[k + 1], es[k]);
  }

  predicate Binds(e: Event, slot: int) {
    (e.Acked? || e.Freed?) && e.slot == slot
  }

  /** The last event that bound or freed a slot; -1 if there is none. */
  function LastFor(es: seq<Event>, slot: int): (k: int)
    ensures -1 <= k < |es|
    ensures k >= 0 ==> Binds(es[k], slot)
    ensures forall i :: k < i < |es| ==> !Binds(es[i], slot)
  {
    if es == [] then -1
    else if Binds(es[|es| - 1], slot) then |es| - 1
    else LastFor(es[..|es| - 1], slot)
  }

  /** A client holds a slot, as the events tell. */
  ghost predicate Holds(es: seq<Event>, nic: string, slot: int) {
    LastFor(es, slot) >= 0 && es[LastFor(es, slot)] == Acked(slot, nic)
  }

  /** The table can be read off the messages and events: a slot belongs to the client of its last acknowledgement, if
      it was not freed since, until the lease duration after that request. */
  lemma {:induction false} TableIsHistory(ts: seq<Table>, ms: seq<Message>, es: seq<Event>, i: nat, slot: int)
    requires Run(ts, ms, es) && i < |ts|
    ensures var k := LastFor(es[..i], slot);
            && (slot in ts[i].leases <==> k >= 0 && es[k].Acked?)
            && (slot in ts[i].leases ==>
                  ms[k].Request? && ts[i].leases[slot] == Lease(es[k].nic, ms[k].now + ts[0].duration))
  {
    if i > 0 {
      TableIsHistory(ts, ms, es, i - 1, slot);
      SlotsInRange(ts, ms, es, i - 1);
      assert Step(ts[i - 1], ms[i - 1], ts[i], es[i - 1]);
      assert es[..i][..i - 1] == es[..i - 1];
    }
  }

  /** A slot is free exactly if it was never acknowledged, or freed after that, or its lease is over. */
  lemma FreeIff(ts: seq<Table>, ms: seq<Message>, es: seq<Event>, i: nat, slot: int, now: int)
    requires Run(ts, ms, es) && i < |ts|
    ensures var k := LastFor(es[..i], slot);
            IsFree(ts[i], now, slot) <==>
            (k >= 0 && es[k].Acked? ==> ms[k].Request? && now > ms[k].now + ts[0].duration)
  {
    TableIsHistory(ts, ms, es, i, slot);
  }

  lemma OwnsIff(ts: seq<Table>, ms: seq<Message>, es: seq<Event>, i: nat, slot: int, nic: string)
    requires Run(ts, ms, es) && i < |ts|
    ensures Owns(ts[i], nic, slot) <==> Holds(es[..i], nic, slot)
  {
    TableIsHistory(ts, ms, es, i, slot);
  }

  /** Who holds a slot is offered one of its own; anybody else the first free slot from the random start on, around the
      range, and nothing if none is free. */
  lemma OfferExact(ts: seq<Table>, ms: seq<Message>, es: seq<Event>, i: nat)
    requires Run(ts, ms, es) && i < |ms| && ms[i].Discover? && 0 <= ms[i].b < ts[0].range
    ensures var nic, now, b := ms[i].nic, ms[i].now, ms[i].b;
            if exists slot :: Holds(es[..i], nic, slot) then
              es[i].Offered? && es[i].nic == nic && Holds(es[..i], nic, es[i].slot)
            else if forall slot :: 0 <= slot < ts[0].range ==> !IsFree(ts[i], now, slot) then es[i] == Silent
            else
              && es[i].Offered? && es[i].nic == nic && 0 <= es[i].slot < ts[0].range && IsFree(ts[i], now, es[i].slot)
              && forall slot :: 0 <= slot < ts[0].range && IsFree(ts[i], now, slot) ==>
                   if es[i].slot >= b then slot < b || slot >= es[i].slot else es[i].slot <= slot < b
  {
    var nic, now, b := ms[i].nic, ms[i].now, ms[i].b;
    SlotsInRange(ts, ms, es, i);
    assert Step(ts[i], ms[i], ts[i + 1], es[i]);
    forall slot
      ensures Owns(ts[i], nic, slot) <==> Holds(es[..i], nic, slot)
    {
      OwnsIff(ts, ms, es, i, slot, nic);
    }
    FreeSlotExact(ts[i], now, b);
  }

  /** Up to the end of its lease an acknowledged slot is offered to nobody else. */
  lemma LeaseIsRespected(ts: seq<Table>, ms: seq<Message>, es: seq<Event>, i: nat, j: nat, slot: int, nic: string)
    requires Run(ts, ms, es) && i < j < |ms| && es[i] == Acked(slot, nic)
    requires forall k :: i < k < j ==> !Binds(es[k], slot)
    requires ms[j].Discover? && ms[j].nic != nic && 0 <= ms[j].b < ts[0].range
    ensures ms[i].Request?
    ensures ms[j].now <= ms[i].now + ts[0].duration ==> es[j] != Offered(slot, ms[j].nic)
  {
    assert Step(ts[i], ms[i], ts[i + 1], es[i]);
    assert LastFor(es[..j], slot) == i;
    FreeIff(ts, ms, es, j, slot, ms[j].now);
    OfferExact(ts, ms, es, j);
  }

  /** A request for another server gets no answer. It is acknowledged exactly if it names a slot in range that nobody
      else holds, whether or not that lease is over, and refused otherwise. */
  lemma AckExact(ts: seq<Table>, ms: seq<Message>, es: seq<Event>, i: nat)
    requires Run(ts, ms, es) && i < |ms| && ms[i].Request?
    ensures var m := ms[i];
            var slot := if m.wanted.Address? then m.wanted.ip - ts[0].start else 0;
            es[i] ==
            if !m.forUs then Silent
            else if && m.wanted.Address? && m.wanted.ip != 0 && 0 <= slot < ts[0].range
                    && forall other :: Holds(es[..i], other, slot) ==> other == m.nic
            then Acked(slot, m.nic)
            else Naked
  {
    var m := ms[i];
    SlotsInRange(ts, ms, es, i);
    assert Step(ts[i], ms[i], ts[i + 1], es[i]);
    if m.wanted.Address? {
      var slot := m.wanted.ip - ts[0].start;
      TableIsHistory(ts, ms, es, i, slot);
      assert slot in ts[i].leases ==> Holds(es[..i], ts[i].leases[slot].nic, slot);
    }
  }

  /** Who holds a slot gives up one of its own, and nobody gives up another's. */
  lemma ReleaseExact(ts: seq<Table>, ms: seq<Message>, es: seq<Event>, i: nat)
    requires Run(ts, ms, es) && i < |ms| && ms[i].Release?
    ensures var nic := ms[i].nic;
            if exists slot :: Holds(es[..i], nic, slot) then
              es[i].Freed? && es[i].nic == nic && Holds(es[..i], nic, es[i].slot)
            else es[i] == Silent
  {
    assert Step(ts[i], ms[i], ts[i + 1], es[i]);
    forall slot
      ensures Owns(ts[i], ms[i].nic, slot) <==> Holds(es[..i], ms[i].nic, slot)
    {
      OwnsIff(ts, ms, es, i, slot, ms[i].nic);
    }
  }

  /** An offer that is requested next is acknowledged exactly when the slot is unbound or the client's own and
      its address does not overflow. An offered slot whose lease has merely expired is refused. */
  lemma OfferHonoured(t: Table, nic: string, now: int, b: int, slot: int, later: int)
    requires 0 <= b < t.range && 0 <= t.start < SPACE
    requires forall s :: s in t.leases ==> 0 <= s < t.range
    requires Step(t, Discover(nic, now, b), t, Offered(slot, nic))
    ensures Answer(t, nic, true, Address(AddressOf(t, slot)), later).1 == Acked(slot, nic) <==>
            (slot in t.leases ==> t.leases[slot].nic == nic) && 0 < t.start + slot < SPACE
  {
    FreeSlotExact(t, now, b);
    if t.start + slot < SPACE {
      assert AddressOf(t, slot) == t.start + slot;
    }
  }

  /** The only slot is leased and expires, another client is offered it, asks for it and is refused. */
  lemma ExpiredOfferExample(a: string, b: string) returns (ts: seq<Table>, ms: seq<Message>, es: seq<Event>)
    requires a != b
    ensures Run(ts, ms, es) && |ms| == 3
    ensures es == [Acked(0, a), Offered(0, b), Naked] && ms[1] == Discover(b, 2, 0)
    ensures ms[2] == Request(b, true, Address(AddressOf(ts[2], 0)), 2)
  {
    var t := Table(1, 1, 1, map[]);
    var t' := t.(leases := map[0 := Lease(a, 1)]);
    assert map[][0 := Lease(a, 1)] == map[0 := Lease(a, 1)];
    ts := [t, t', t', t'];
    ms := [Request(a, true, Address(1), 0), Discover(b, 2, 0), Request(b, true, Address(1), 2)];
    es := [Acked(0, a), Offered(0, b), Naked];
    assert Step(t, ms[0], t', es[0]);
    assert !exists i :: Owns(t', b, i);
    assert Scan(t', 2, 0, 1) == 0;
    assert Step(t', ms[1], t', es[1]);
    assert Step(t', ms[2], t', es[2]);
  }

  // ---------------------------------------------------------------- the server

  class Handler {
    const start: nat
    const leaseRange: int
    const leaseDuration: int
    var leases: map<nat, Lease>

    function Here(): Table
      reads this
    {
      Table(start, leaseRange, leaseDuration, leases)
    }

    constructor (start: nat, leaseRange: int, leaseDuration: int)
      ensures Here() == Table(start, leaseRange, leaseDuration, map[])
    {
      this.start, this.leaseRange, this.leaseDuration := start, leaseRange, leaseDuration;
      leases := map[];
    }

    /** `b` is the random start; drawing one needs a positive range. */
    method FreeLease(now: int, b: int) returns (r: int)
      requires 0 <= b < leaseRange
      ensures r == FreeSlot(Here(), now, b)
      ensures r == -1 <==> forall i :: 0 <= i < leaseRange ==> !IsFree(Here(), now, i)
    {
      FreeSlotExact(Here(), now, b);
      var i := b;
      while i < leaseRange
        invariant b <= i <= leaseRange
        invariant Scan(Here(), now, b, leaseRange) == Scan(Here(), now, i, leaseRange)
      {
        if i !in leases || leases[i].expiry < now {
          return i;
        }
        i := i + 1;
      }
      i := 0;
      while i < b
        invariant 0 <= i <= b
        invariant Scan(Here(), now, 0, b) == Scan(Here(), now, i, b)
      {
        if i !in leases || leases[i].expiry < now {
          return i;
        }
        i := i + 1;
      }
      return -1;
    }

    /** Any slot of a client; -1 if it has none. */
    method SlotOf(nic: string) returns (r: int, found: bool)
      ensures found ==> Owns(Here(), nic, r)
      ensures !found ==> forall i :: !Owns(Here(), nic, i)
    {
      var slots := leases.Keys;
      while slots != {}
        invariant slots <= leases.Keys
        invariant forall i :: i in leases && leases[i].nic == nic ==> i in slots
        decreases slots
      {
        var i :| i in slots;
        if leases[i].nic == nic {
          assert Owns(Here(), nic, i);
          return i, true;
        }
        slots := slots - {i};
      }
      return -1, false;
    }

    method ServeDiscover(nic: string, now: int, b: int) returns (e: Event)
      requires 0 <= b < leaseRange
      ensures Step(Here(), Discover(nic, now, b), Here(), e)
    {
      var slot, found := SlotOf(nic);
      if !found {
        slot := FreeLease(now, b);
        if slot == -1 {
          return Silent;
        }
      }
      return Offered(slot, nic);
    }

    method ServeRequest(nic: string, forUs: bool, wanted: Wanted, now: int) returns (e: Event)
      modifies this
      ensures Step(old(Here()), Request(nic, forUs, wanted, now), Here(), e)
    {
      if !forUs {
        return Silent;
      }
      if wanted.Address? && wanted.ip != 0 {
        var slot := wanted.ip - start;
        if 0 <= slot < leaseRange && (slot !in leases || leases[slot].nic == nic) {
          leases := leases[slot := Lease(nic, now + leaseDuration)];
          return Acked(slot, nic);
        }
      }
      return Naked;
    }

    method ServeRelease(nic: string) returns (e: Event)
      modifies this
      ensures Step(old(Here()), Release(nic), Here(), e)
    {
      var slot, found := SlotOf(nic);
      if !found {
        return Silent;
      }
      leases := leases - {slot};
      return Freed(slot, nic);
    }
  }
}
