/** The leaky bucket: capacity, refills and the requests let through (leakybucket/main.go). */
module LeakyBucket {

  /** One tick: refill at zero or below, then leak. */
  function Tick(capacity: int, max: int, leak: int): int {
    (if capacity <= 0 then max else capacity) - leak
  }

  /** The capacity after t ticks. */
  function After(max: int, leak: int, t: nat): int {
    if t == 0 then max else Tick(After(max, leak, t - 1), max, leak)
  }

  /** Whether tick number t, counted from one, finds the bucket empty. */
  predicate Refills(max: int, leak: int, t: nat)
    requires t >= 1
  {
    After(max, leak, t - 1) <= 0
  }

  /** How many ticks empty a full bucket: the quotient of capacity and leak, rounded up. */
  function Cycle(max: int, leak: int): (c: int)
    requires 1 <= leak <= max
    ensures c >= 1
    ensures (c - 1) * leak < max <= c * leak
  {
    RoundUp(max, leak);
    (max + leak - 1) / leak
  }

  lemma RoundUp(max: int, leak: int)
    requires 1 <= leak <= max
    ensures var c := (max + leak - 1) / leak;
            c >= 1 && (c - 1) * leak < max <= c * leak
  {
    var n := max + leak - 1;
    var c := n / leak;
    assert n == leak * c + n % leak;
    assert (c - 1) * leak == leak * c - leak;
    if c < 1 {
      Products(c, 0, leak);
      assert false;
    }
  }

  /** The position of a tick in its cycle moves on by one, or starts over at the end. */
  lemma NextInCycle(t: nat, c: int)
    requires c >= 1
    ensures (t + 1) % c == if t % c == c - 1 then 0 else t % c + 1
  {
    var q, r := t / c, t % c;
    QuotientAndRest(t, c);
    if r == c - 1 {
      assert (q + 1) * c == q * c + c;
      RestUnique(t + 1, c, q + 1, 0);
    } else {
      RestUnique(t + 1, c, q, r + 1);
    }
  }

  lemma QuotientAndRest(n: nat, c: int)
    requires c >= 1
    ensures n == (n / c) * c + n % c && 0 <= n % c < c
  {
  }

  lemma RestUnique(n: nat, c: int, q: int, r: int)
    requires c >= 1 && n == q * c + r && 0 <= r < c
    ensures n % c == r
  {
    QuotientAndRest(n, c);
    SameQuotient(c, q, r, n / c, n % c);
  }

  lemma SameQuotient(c: int, q: int, r: int, q': int, r': int)
    requires c >= 1 && 0 <= r < c && 0 <= r' < c && q * c + r == q' * c + r'
    ensures q == q' && r == r'
  {
    assert (q + 1) * c == q * c + c && (q' + 1) * c == q' * c + c;
    if q < q' {
      Products(q + 1, q', c);
    } else if q > q' {
      Products(q' + 1, q, c);
    }
  }

  /** The capacity at a position of the cycle. */
  function Level(max: int, leak: int, r: int): int {
    max - (r + 1) * leak
  }

  /** One tick within a cycle, and from its end into the next. */
  lemma Fall(max: int, leak: int, c: int, r: int)
    requires 1 <= leak <= max && 0 <= r < c && (c - 1) * leak < max <= c * leak
    ensures Tick(Level(max, leak, r), max, leak) == Level(max, leak, if r == c - 1 then 0 else r + 1)
    ensures Level(max, leak, r) <= 0 <==> r == c - 1
  {
    if r < c - 1 {
      Products(r + 1, c - 1, leak);
      assert (r + 2) * leak == (r + 1) * leak + leak;
    }
  }

  /** The capacity in closed form: it falls by one leak per tick through each cycle. */
  lemma {:induction false} ClosedForm(max: int, leak: int, t: nat)
    requires 1 <= leak <= max
    ensures After(max, leak, t + 1) == max - (t % Cycle(max, leak) + 1) * leak
  {
    var c := Cycle(max, leak);
    if t == 0 {
      RestUnique(0, c, 0, 0);
    } else {
      var r := (t - 1) % c;
      ClosedForm(max, leak, t - 1);
      QuotientAndRest(t - 1, c);
      NextInCycle(t - 1, c);
      Fall(max, leak, c, r);
      assert After(max, leak, t + 1) == Tick(Level(max, leak, r), max, leak);
    }
  }

  lemma Products(a: int, b: int, k: int)
    requires a <= b && k >= 0
    ensures a * k <= b * k
  {
  }

  /** At all times the capacity is above minus one leak and at most the maximum. */
  lemma CapacityBounds(max: int, leak: int, t: nat)
    requires 1 <= leak <= max
    ensures -leak < After(max, leak, t) <= max
  {
    if t > 0 {
      var c := Cycle(max, leak);
      var k := (t - 1) % c + 1;
      ClosedForm(max, leak, t - 1);
      QuotientAndRest(t - 1, c);
      Products(k, c, leak);
      Products(0, k, leak);
      ReleasedPerCycle(max, leak);
    }
  }

  /** Refills happen exactly once per cycle, the first one a full cycle after the first tick. */
  lemma RefillsEachCycle(max: int, leak: int, t: nat)
    requires 1 <= leak <= max && t >= 1
    ensures Refills(max, leak, t) <==> t > 1 && (t - 1) % Cycle(max, leak) == 0
  {
    if t > 1 {
      var c := Cycle(max, leak);
      ClosedForm(max, leak, t - 2);
      QuotientAndRest(t - 2, c);
      NextInCycle(t - 2, c);
      Fall(max, leak, c, (t - 2) % c);
    }
  }

  /** A cycle lets through at least the capacity and less than one leak more. */
  lemma ReleasedPerCycle(max: int, leak: int)
    requires 1 <= leak <= max
    ensures max <= Cycle(max, leak) * leak < max + leak
  {
    var c := Cycle(max, leak);
    assert c * leak == (c - 1) * leak + leak;
  }

  // ---------------------------------------------------------------- the bucket and its clients

  class Bucket {
    const maxCapacity: int
    const leak: int
    var dynamicCapacity: int

    constructor (capacity: int, leak: int)
      ensures dynamicCapacity == maxCapacity == capacity && this.leak == leak
    {
      maxCapacity, this.leak, dynamicCapacity := capacity, leak, capacity;
    }

    method Refill()
      modifies this
      ensures dynamicCapacity == maxCapacity
    {
      dynamicCapacity := maxCapacity;
    }

    /** The body of the ticker loop; `slots` goes out on the ready channel. `t` counts the ticks so far. */
    method OnTick(ghost t: nat) returns (slots: int)
      requires dynamicCapacity == After(maxCapacity, leak, t)
      modifies this
      ensures dynamicCapacity == After(maxCapacity, leak, t + 1) && slots == leak
      ensures 1 <= leak <= maxCapacity ==> -leak < dynamicCapacity <= maxCapacity
    {
      if 1 <= leak <= maxCapacity {
        CapacityBounds(maxCapacity, leak, t + 1);
      }
      if dynamicCapacity <= 0 {
        Refill();
      }
      dynamicCapacity := dynamicCapacity - leak;
      slots := leak;
    }
  }

  /** A leak larger than the capacity is fatal. */
  method NewLeakyBucket(capacity: int, leak: int) returns (b: Bucket?)
    ensures b == null <==> leak > capacity
    ensures b != null ==> fresh(b) && b.maxCapacity == b.dynamicCapacity == capacity && b.leak == leak
  {
    if leak > capacity {
      return null;
    }
    b := new Bucket(capacity, leak);
  }

  /** The ticker holds back `pending` slots until a client takes them; every client works off its own. */
  datatype State = State(capacity: int, ticks: nat, pending: int, clients: seq<int>, counter: nat)

  datatype Step = TickStep | Hand(client: nat) | Fetch(client: nat)

  predicate Enabled(s: State, a: Step) {
    match a
    case TickStep => s.pending == 0
    case Hand(i) => i < |s.clients| && s.clients[i] <= 0 && s.pending != 0
    case Fetch(i) => i < |s.clients| && s.clients[i] >= 1
  }

  function Do(max: int, leak: int, s: State, a: Step): State
    requires Enabled(s, a)
  {
    match a
    case TickStep => s.(capacity := Tick(s.capacity, max, leak), ticks := s.ticks + 1, pending := leak)
    case Hand(i) => s.(clients := s.clients[i := s.pending], pending := 0)
    case Fetch(i) => s.(clients := s.clients[i := s.clients[i] - 1], counter := s.counter + 1)
  }

  function Sum(s: seq<int>): int {
    if s == [] then 0 else s[0] + Sum(s[1..])
  }

  lemma {:induction false} SumUpdate(s: seq<int>, i: nat, x: int)
    requires i < |s|
    ensures Sum(s[i := x]) == Sum(s) - s[i] + x
  {
    if i > 0 {
      SumUpdate(s[1..], i - 1, x);
      assert s[i := x][1..] == s[1..][i - 1 := x];
    } else {
      assert s[0 := x][1..] == s[1..];
    }
  }

  lemma {:induction false} SumOfNats(s: seq<int>)
    requires forall i :: 0 <= i < |s| ==> s[i] >= 0
    ensures Sum(s) >= 0
  {
    if s != [] {
      SumOfNats(s[1..]);
    }
  }

  /** Every slot of every tick is held back, in the hands of a client, or a request that was made. */
  ghost predicate Inv(max: int, leak: int, s: State) {
    && s.capacity == After(max, leak, s.ticks)
    && (s.pending == 0 || s.pending == leak)
    && (forall i :: 0 <= i < |s.clients| ==> s.clients[i] >= 0)
    && s.counter + Sum(s.clients) + s.pending == leak * s.ticks
  }

  lemma StepKeeps(max: int, leak: int, s: State, a: Step)
    requires 1 <= leak <= max && Inv(max, leak, s) && Enabled(s, a)
    ensures Inv(max, leak, Do(max, leak, s, a))
  {
    match a {
      case TickStep => assert leak * (s.ticks + 1) == leak * s.ticks + leak;
      case Hand(i) => SumUpdate(s.clients, i, s.pending);
      case Fetch(i) => SumUpdate(s.clients, i, s.clients[i] - 1);
    }
  }

  ghost predicate Run(max: int, leak: int, run: seq<State>, acts: seq<Step>) {
    && |run| == |acts| + 1
    && run[0].capacity == max && run[0].ticks == 0 && run[0].pending == 0 && run[0].counter == 0
    && (forall i :: 0 <= i < |run[0].clients| ==> run[0].clients[i] == 0)
    && forall i :: 0 <= i < |acts| ==> Enabled(run[i], acts[i]) && run[i + 1] == Do(max, leak, run[i], acts[i])
  }

  lemma {:induction false} NothingYet(s: seq<int>)
    requires forall i :: 0 <= i < |s| ==> s[i] == 0
    ensures Sum(s) == 0
  {
    if s != [] {
      NothingYet(s[1..]);
    }
  }

  lemma {:induction false} RunKeeps(max: int, leak: int, run: seq<State>, acts: seq<Step>, i: nat)
    requires 1 <= leak <= max && Run(max, leak, run, acts) && i < |run|
    ensures Inv(max, leak, run[i])
  {
    if i == 0 {
      NothingYet(run[0].clients);
    } else {
      RunKeeps(max, leak, run, acts, i - 1);
      StepKeeps(max, leak, run[i - 1], acts[i - 1]);
    }
  }

  /** In every interleaving, with any number of clients, t ticks let through at most t leaks; when nothing is held
      back or in hand it is exactly that many. */
  lemma RequestsBounded(max: int, leak: int, run: seq<State>, acts: seq<Step>, i: nat)
    requires 1 <= leak <= max && Run(max, leak, run, acts) && i < |run|
    ensures run[i].counter <= leak * run[i].ticks
    ensures run[i].counter == leak * run[i].ticks <==> run[i].pending == 0 && Sum(run[i].clients) == 0
    ensures -leak < run[i].capacity <= max
  {
    RunKeeps(max, leak, run, acts, i);
    SumOfNats(run[i].clients);
    CapacityBounds(max, leak, run[i].ticks);
  }
}
