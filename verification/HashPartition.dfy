/** How a 64-bit name hash picks one of the live upstream servers (jojo.go). */
module HashPartition {
  import opened Words

  datatype Picked = AllDown | Server(addr: string)

  /** How many hashes a server gets before the next one is picked. */
  function Quota(n: u64): (q: nat)
    requires n >= 1
    ensures q >= 1
    ensures q == MAX / n && MAX == n * q + MAX % n
  {
    assert MAX == n * (MAX / n) + MAX % n;
    MAX / n
  }

  /** The position in the live list that a hash picks. */
  function Pick(h: u64, n: u64): (k: nat)
    requires n >= 1
    ensures k < n
  {
    var i := h / Quota(n);
    if i >= n then n - 1 else i
  }

  /** What pickUpstream returns for a hash: an error, or an address. */
  function PickUpstream(h: u64, live: seq<string>): Picked
    requires |live| < LIMIT
  {
    if |live| == 0 then AllDown else Server(live[Pick(h, |live|)])
  }

  lemma QuotientBounds(h: nat, q: nat)
    requires q >= 1
    ensures (h / q) * q <= h < (h / q + 1) * q
  {
    assert h == q * (h / q) + h % q;
  }

  lemma QuotientUnique(h: nat, q: nat, k: nat)
    requires q >= 1
    ensures h / q == k <==> k * q <= h < (k + 1) * q
    ensures h / q >= k <==> k * q <= h
  {
    QuotientBounds(h, q);
    if h / q < k {
      MulMonotone(h / q + 1, k, q);
    }
    if h / q > k {
      MulMonotone(k + 1, h / q, q);
    }
  }

  lemma MulMonotone(a: nat, b: nat, q: nat)
    requires a <= b
    ensures a * q <= b * q
  {
  }

  /** The hashes that pick position k form one interval, and the intervals follow each other in order. */
  lemma PickInterval(h: u64, n: u64, k: u64)
    requires n >= 1 && k < n
    ensures Pick(h, n) == k <==> k * Quota(n) <= h && (k < n - 1 ==> h < (k + 1) * Quota(n))
  {
    QuotientUnique(h, Quota(n), k);
    QuotientUnique(h, Quota(n), n - 1);
  }

  /** With nobody live there is an error; otherwise the server whose interval holds the hash is picked. */
  lemma UpstreamByInterval(h: u64, live: seq<string>, k: u64)
    requires |live| < LIMIT
    ensures PickUpstream(h, live) == AllDown <==> live == []
    ensures k < |live| && k * Quota(|live|) <= h && (k < |live| - 1 ==> h < (k + 1) * Quota(|live|)) ==>
              PickUpstream(h, live) == Server(live[k])
  {
    if k < |live| {
      PickInterval(h, |live|, k);
    }
  }

  /** A larger hash never picks an earlier server. */
  lemma Monotone(h1: u64, h2: u64, n: u64)
    requires n >= 1 && h1 <= h2
    ensures Pick(h1, n) <= Pick(h2, n)
  {
    QuotientUnique(h2, Quota(n), h1 / Quota(n));
    QuotientBounds(h1, Quota(n));
  }

  ghost function Interval(lo: int, hi: int): (s: set<int>)
    requires lo <= hi
    ensures forall h :: h in s <==> lo <= h < hi
    ensures |s| == hi - lo
    decreases hi - lo
  {
    if lo == hi then {} else Interval(lo, hi - 1) + {hi - 1}
  }

  /** The hashes that go to one server. */
  ghost function Share(n: u64, k: u64): set<int>
    requires n >= 1
  {
    set h: int | 0 <= h < LIMIT && Pick(h, n) == k
  }

  /** Where the interval of position k begins and ends. */
  lemma IntervalEnds(n: u64, k: u64) returns (lo: int, hi: int)
    requires n >= 1 && k < n
    ensures lo == k * Quota(n) && hi == if k < n - 1 then (k + 1) * Quota(n) else LIMIT
    ensures 0 <= lo && hi <= LIMIT
    ensures hi - lo == Quota(n) + if k < n - 1 then 0 else MAX % n + 1
  {
    var q := Quota(n);
    lo := k * q;
    hi := if k < n - 1 then (k + 1) * q else LIMIT;
    assert (k + 1) * q == k * q + q;
    MulMonotone(k + 1, n, q);
    assert k == n - 1 ==> lo + q == n * q;
  }

  /** Every server but the last gets exactly the quota; the last one gets it and the whole remainder. */
  lemma Shares(n: u64, k: u64)
    requires n >= 1 && k < n
    ensures |Share(n, k)| == MAX / n + if k < n - 1 then 0 else MAX % n + 1
  {
    var lo, hi := IntervalEnds(n, k);
    forall h
      ensures h in Share(n, k) <==> h in Interval(lo, hi)
    {
      if 0 <= h < LIMIT {
        PickInterval(h, n, k);
      }
    }
    assert Share(n, k) == Interval(lo, hi);
  }

  /** Any two shares differ by at most the number of servers. */
  lemma Balanced(n: u64, j: u64, k: u64)
    requires n >= 1 && j < n && k < n
    ensures |Share(n, j)| <= |Share(n, k)| + n
  {
    Shares(n, j);
    Shares(n, k);
  }
}
