/** The greedy intersection of two lists, in place and with its early stop (list-intersect/fast/fast.go). */
module Intersection {

  /** The first position of a value; the length if it does not occur. */
  function IndexOf(x: int, s: seq<int>): (j: nat)
    ensures j <= |s|
    ensures j < |s| ==> s[j] == x
    ensures forall k :: 0 <= k < j ==> s[k] != x
  {
    if s == [] || s[0] == x then 0 else 1 + IndexOf(x, s[1..])
  }

  function Without(s: seq<int>, j: nat): seq<int>
    requires j < |s|
  {
    s[..j] + s[j + 1..]
  }

  /** The common values found, what is left of the longer list, and how far the shorter one was looked at. */
  datatype Found = Found(inter: seq<int>, rest: seq<int>, used: nat)

  /** The loop stops for good when the two lists do not go on with the same value. */
  predicate Stops(low: seq<int>, high: seq<int>, i: nat, j: nat) {
    i + 1 < |low| && j + 1 < |high| && low[i + 1] != high[j + 1]
  }

  function Greedy(low: seq<int>, high: seq<int>, i: nat): (r: Found)
    requires i <= |low|
    ensures i <= r.used <= |low|
    decreases |low| - i
  {
    if i == |low| then Found([], high, i)
    else
      var j := IndexOf(low[i], high);
      if j == |high| then Greedy(low, high, i + 1)
      else if Stops(low, high, i, j) then Found([low[i]], Without(high, j), i + 1)
      else
        var r := Greedy(low, Without(high, j), i + 1);
        r.(inter := [low[i]] + r.inter)
  }

  ghost predicate Subsequence(a: seq<int>, b: seq<int>) {
    if a == [] then true
    else if b == [] then false
    else Subsequence(a, b[1..]) || (a[0] == b[0] && Subsequence(a[1..], b[1..]))
  }

  lemma WithoutCounts(s: seq<int>, j: nat)
    requires j < |s|
    ensures multiset(s) == multiset(Without(s, j)) + multiset{s[j]}
  {
    assert s == s[..j] + [s[j]] + s[j + 1..];
  }

  lemma MeetHit(low: multiset<int>, high: multiset<int>, x: int)
    ensures (low + multiset{x}) * (high + multiset{x}) == low * high + multiset{x}
  {
  }

  lemma MeetMiss(low: multiset<int>, high: multiset<int>, x: int)
    requires x !in high
    ensures (low + multiset{x}) * high == low * high
  {
  }

  lemma MeetIff(m: multiset<int>, n: multiset<int>, h: multiset<int>)
    ensures m * h == (m + n) * h <==> forall x :: x in n ==> m[x] >= h[x]
  {
    if m * h == (m + n) * h {
      forall x | x in n
        ensures m[x] >= h[x]
      {
        assert (m * h)[x] == ((m + n) * h)[x];
      }
    }
    if forall x :: x in n ==> m[x] >= h[x] {
      forall x
        ensures (m * h)[x] == ((m + n) * h)[x]
      {
        assert x in n || n[x] == 0;
      }
      assert m * h == (m + n) * h;
    }
  }

  lemma FirstOf(low: seq<int>, i: nat, used: nat)
    requires i < used <= |low|
    ensures multiset(low[i..used]) == multiset(low[i + 1..used]) + multiset{low[i]}
  {
    assert low[i..used] == [low[i]] + low[i + 1..used];
  }

  /** The longer list after the first occurrence of each given value has been removed, one after the other. */
  function Removed(high: seq<int>, xs: seq<int>): seq<int> {
    if xs == [] then high
    else
      var h := Removed(high, xs[..|xs| - 1]);
      var j := IndexOf(xs[|xs| - 1], h);
      if j == |h| then h else Without(h, j)
  }

  /** Position i of the shorter list has a partner, and the lists do not go on with the same value behind the two. */
  predicate Diverges(low: seq<int>, high: seq<int>, i: nat)
    requires i < |low|
  {
    var h := Removed(high, low[..i]);
    var j := IndexOf(low[i], h);
    i + 1 < |low| && j + 1 < |h| && low[i + 1] != h[j + 1]
  }

  lemma RemovedNext(low: seq<int>, high: seq<int>, i: nat)
    requires i < |low|
    ensures var h := Removed(high, low[..i]);
            var j := IndexOf(low[i], h);
            Removed(high, low[..i + 1]) == if j == |h| then h else Without(h, j)
  {
    assert low[..i + 1][..i] == low[..i];
  }

  /** The first position from i on at which the lists diverge; the length of the shorter one if there is none. */
  function FirstDivergence(low: seq<int>, high: seq<int>, i: nat): (d: nat)
    requires i <= |low|
    ensures i <= d <= |low|
    ensures d < |low| ==> Diverges(low, high, d)
    ensures forall k :: i <= k < d ==> !Diverges(low, high, k)
    decreases |low| - i
  {
    if i == |low| || Diverges(low, high, i) then i else FirstDivergence(low, high, i + 1)
  }

  /** How much of the shorter list comes up to and including the first divergence. */
  function Considered(low: seq<int>, high: seq<int>, i: nat): (n: nat)
    requires i <= |low|
    ensures i <= n <= |low|
  {
    var d := FirstDivergence(low, high, i);
    if d < |low| then d + 1 else d
  }

  /** Where one round of the outer loop leads. */
  lemma RoundLeads(low: seq<int>, high: seq<int>, i: nat, h: seq<int>) returns (h': seq<int>)
    requires i < |low| && h == Removed(high, low[..i])
    ensures h' == Removed(high, low[..i + 1])
    ensures Diverges(low, high, i) ==> i + 1 < |low|
    ensures Greedy(low, h, i).used == if Diverges(low, high, i) then i + 1 else Greedy(low, h', i + 1).used
  {
    RemovedNext(low, high, i);
    var j := IndexOf(low[i], h);
    h' := if j == |h| then h else Without(h, j);
  }

  lemma {:induction false} StopsFrom(low: seq<int>, high: seq<int>, h: seq<int>, i: nat)
    requires i <= |low| && h == Removed(high, low[..i])
    ensures Greedy(low, h, i).used == Considered(low, high, i)
    decreases |low| - i
  {
    if i < |low| {
      var h' := RoundLeads(low, high, i, h);
      if !Diverges(low, high, i) {
        StopsFrom(low, high, h', i + 1);
      }
    }
  }

  /** The shorter list is looked at up to the first place where the lists diverge, and to its end if there is none. */
  lemma StopsAtDivergence(low: seq<int>, high: seq<int>)
    ensures Greedy(low, high, 0).used == Considered(low, high, 0)
  {
    assert low[..0] == [];
    StopsFrom(low, high, high, 0);
  }

  lemma {:induction false} LeavesFrom(low: seq<int>, high: seq<int>, h: seq<int>, i: nat)
    requires i <= |low| && h == Removed(high, low[..i])
    ensures Greedy(low, h, i).rest == Removed(high, low[..Greedy(low, h, i).used])
    decreases |low| - i
  {
    if i < |low| {
      RemovedNext(low, high, i);
      var j := IndexOf(low[i], h);
      if j == |h| {
        LeavesFrom(low, high, h, i + 1);
      } else if !Stops(low, h, i, j) {
        LeavesFrom(low, high, Without(h, j), i + 1);
      }
    }
  }

  /** What is left of the longer list is what taking out first occurrences leaves, in its order. */
  lemma LeavesTheRest(low: seq<int>, high: seq<int>)
    ensures var r := Greedy(low, high, 0);
            r.rest == Removed(high, low[..r.used])
  {
    assert low[..0] == [];
    LeavesFrom(low, high, high, 0);
  }

  /** The result keeps the order of the shorter list. */
  lemma {:induction false} GreedyOrdered(low: seq<int>, high: seq<int>, i: nat)
    requires i <= |low|
    ensures var r := Greedy(low, high, i);
            Subsequence(r.inter, low[i..r.used])
    decreases |low| - i
  {
    var r := Greedy(low, high, i);
    if i < |low| {
      var j := IndexOf(low[i], high);
      assert low[i..r.used][1..] == low[i + 1..r.used];
      if j == |high| {
        GreedyOrdered(low, high, i + 1);
      } else if Stops(low, high, i, j) {
        assert r.inter[1..] == [];
      } else {
        GreedyOrdered(low, Without(high, j), i + 1);
        assert r.inter[1..] == Greedy(low, Without(high, j), i + 1).inter;
      }
    }
  }

  /** The result is the multiset intersection of the part of the shorter list that was looked at with the longer
      list; together with what is left it makes up the longer list. */
  lemma {:induction false} GreedyExact(low: seq<int>, high: seq<int>, i: nat)
    requires i <= |low|
    ensures var r := Greedy(low, high, i);
            && multiset(r.inter) == multiset(low[i..r.used]) * multiset(high)
            && multiset(r.inter) + multiset(r.rest) == multiset(high)
    decreases |low| - i
  {
    var r := Greedy(low, high, i);
    if i < |low| {
      var x := low[i];
      var j := IndexOf(x, high);
      FirstOf(low, i, r.used);
      if j == |high| {
        GreedyExact(low, high, i + 1);
        MeetMiss(multiset(low[i + 1..r.used]), multiset(high), x);
      } else {
        var high' := Without(high, j);
        WithoutCounts(high, j);
        MeetHit(multiset(low[i + 1..r.used]), multiset(high'), x);
        if Stops(low, high, i, j) {
          assert low[i + 1..r.used] == [];
        } else {
          GreedyExact(low, high', i + 1);
          assert multiset(r.inter) == multiset(Greedy(low, high', i + 1).inter) + multiset{x};
        }
      }
    }
  }

  /** When the part of a list up to a point has the same values in common with h as the whole list. */
  lemma Behind(low: seq<int>, used: nat, h: multiset<int>)
    requires used <= |low|
    ensures multiset(low[..used]) * h == multiset(low) * h <==>
            forall x :: x in low[used..] ==> multiset(low[..used])[x] >= h[x]
  {
    var seen, behind := low[..used], low[used..];
    assert low == seen + behind;
    assert multiset(low) == multiset(seen) + multiset(behind);
    MeetIff(multiset(seen), multiset(behind), h);
    assert forall x :: x in behind <==> x in multiset(behind);
  }

  /** The result is the whole intersection exactly when every value behind the first divergence has as many
      occurrences up to there as in the longer list. */
  lemma CompleteIff(low: seq<int>, high: seq<int>)
    ensures multiset(Greedy(low, high, 0).inter) == multiset(low) * multiset(high) <==>
            var n := Considered(low, high, 0);
            forall x :: x in low[n..] ==> multiset(low[..n])[x] >= multiset(high)[x]
  {
    var n := Considered(low, high, 0);
    StopsAtDivergence(low, high);
    GreedyExact(low, high, 0);
    assert low[0..n] == low[..n];
    Behind(low, n, multiset(high));
  }

  /** Two common values in the shorter list, but the loop stops after the first. */
  lemma EarlyStopExample()
    ensures Greedy([1, 2], [1, 3, 2], 0).inter == [1]
  {
    assert IndexOf(1, [1, 3, 2]) == 0;
  }

  // ---------------------------------------------------------------- in place

  function Onto(before: seq<int>, r: Found): Found {
    r.(inter := before + r.inter)
  }

  /** One round of the outer loop. */
  lemma Round(low: seq<int>, high: seq<int>, i: nat, inter: seq<int>)
    requires i < |low|
    ensures var j := IndexOf(low[i], high);
            Onto(inter, Greedy(low, high, i)) ==
            if j == |high| then Onto(inter, Greedy(low, high, i + 1))
            else if Stops(low, high, i, j) then Found(inter + [low[i]], Without(high, j), i + 1)
            else Onto(inter + [low[i]], Greedy(low, Without(high, j), i + 1))
  {
    var j := IndexOf(low[i], high);
    if j < |high| {
      var r := Greedy(low, Without(high, j), i + 1);
      assert inter + ([low[i]] + r.inter) == inter + [low[i]] + r.inter;
    }
  }

  method Find(high: array<int>, len: nat, x: int) returns (j: nat)
    requires len <= high.Length
    ensures j == IndexOf(x, high[..len])
  {
    j := 0;
    while j < len && high[j] != x
      invariant j <= len
      invariant forall k :: 0 <= k < j ==> high[k] != x
    {
      j := j + 1;
    }
    ghost var i := IndexOf(x, high[..len]);
    assert i < len ==> high[..len][i] == high[i];
    assert j < len ==> high[..len][j] == high[j];
  }

  /** Closes the gap at j by moving the rest one place down. */
  method Remove(high: array<int>, len: nat, j: nat)
    requires j < len <= high.Length
    modifies high
    ensures high[..len - 1] == Without(old(high[..len]), j)
    ensures forall k :: 0 <= k < j ==> high[k] == old(high[k])
    ensures forall k :: j <= k < len - 1 ==> high[k] == old(high[k + 1])
  {
    var k := j;
    while k < len - 1
      invariant j <= k <= len - 1
      invariant forall i :: 0 <= i < j ==> high[i] == old(high[i])
      invariant forall i :: j <= i < k ==> high[i] == old(high[i + 1])
      invariant forall i :: k <= i < len ==> high[i] == old(high[i])
    {
      high[k] := high[k + 1];
      k := k + 1;
    }
  }

  /** Looks for one value of the shorter list and takes it out of the longer one. */
  method TakeOne(low: array<int>, i: nat, high: array<int>, len: nat) returns (hit: bool, done: bool)
    requires low != high && i < low.Length && len <= high.Length
    modifies high
    ensures var before := old(high[..len]);
            var j := IndexOf(low[i], before);
            && hit == (j < len)
            && (!hit ==> high[..len] == before && !done)
            && (hit ==> high[..len - 1] == Without(before, j))
            && (hit ==> done == (i + 1 < low.Length && j + 1 < len && low[i + 1] != before[j + 1]))
  {
    var j := Find(high, len, low[i]);
    hit, done := j < len, false;
    if hit {
      done := i + 1 < low.Length && j + 1 < len && low[i + 1] != high[j + 1];
      Remove(high, len, j);
    }
  }

  /** `left` is the length of what remains of the longer list, in its own array. */
  method Intersect(low: array<int>, high: array<int>) returns (inter: seq<int>, left: nat)
    requires low != high
    modifies high
    ensures left <= high.Length
    ensures var r := Greedy(low[..], old(high[..]), 0);
            inter == r.inter && high[..left] == r.rest
  {
    inter, left := [], high.Length;
    ghost var l, all := low[..], Greedy(low[..], high[..], 0);
    assert high[..left] == high[..] && [] + all.inter == all.inter;
    ghost var rest := high[..];
    var i := 0;
    while i < low.Length
      invariant i <= low.Length && left <= high.Length && low[..] == l && high[..left] == rest
      invariant all == Onto(inter, Greedy(l, rest, i))
    {
      Round(l, rest, i, inter);
      var hit, done := TakeOne(low, i, high, left);
      if hit {
        inter := inter + [low[i]];
        left := left - 1;
        rest := high[..left];
        if done {
          assert all == Found(inter, rest, i + 1);
          return;
        }
      }
      assert all == Onto(inter, Greedy(l, rest, i + 1));
      i := i + 1;
    }
    assert all == Onto(inter, Found([], rest, i));
    assert inter + [] == inter;
  }

  /** The shorter list is scanned, the longer one is consumed. */
  method IntersectLists(a: array<int>, b: array<int>) returns (inter: seq<int>, left: nat)
    requires a != b
    modifies a, b
    ensures left <= (if a.Length > b.Length then a else b).Length
    ensures var low, high := if a.Length > b.Length then old(b[..]) else old(a[..]),
                             if a.Length > b.Length then old(a[..]) else old(b[..]);
            var r := Greedy(low, high, 0);
            && inter == r.inter
            && (if a.Length > b.Length then a else b)[..left] == r.rest
            && (if a.Length > b.Length then b else a)[..] == low
  {
    if a.Length > b.Length {
      inter, left := Intersect(b, a);
    } else {
      inter, left := Intersect(a, b);
    }
  }
}
