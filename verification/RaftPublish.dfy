/** From a batch of committed entries to the stream of commit messages (raft.go). */
module RaftPublish {
  import opened Words
  import opened RaftTypes

  datatype Slice = Suffix(ents: seq<Entry>) | Fatal

  /** Drops what was applied before. The subtraction runs on uint64 and wraps when the batch is all new. */
  function EntriesToApply(applied: u64, ents: seq<Entry>): Slice {
    if |ents| == 0 then Suffix([])
    else
      var first := ents[0].index;
      if first > WrapAdd(applied, 1) then Fatal
      else
        var skip := WrapAdd(WrapSub(applied, first), 1);
        if skip < |ents| then Suffix(ents[skip..]) else Suffix([])
  }

  /** The entries that are still to be applied, by their index and without any arithmetic. */
  ghost function Beyond(applied: u64, ents: seq<Entry>): seq<Entry> {
    if ents == [] then []
    else (if ents[0].index > applied then [ents[0]] else []) + Beyond(applied, ents[1..])
  }

  ghost predicate Contiguous(ents: seq<Entry>) {
    forall i :: 0 <= i < |ents| ==> ents[i].index == ents[0].index + i
  }

  lemma {:induction false} BeyondSlice(applied: u64, ents: seq<Entry>)
    requires Contiguous(ents)
    ensures Beyond(applied, ents) ==
            if ents == [] || applied < ents[0].index then ents
            else if applied - ents[0].index + 1 < |ents| then ents[applied - ents[0].index + 1..]
            else []
  {
    if ents != [] {
      var rest := ents[1..];
      assert ents == [ents[0]] + rest;
      assert forall i :: 0 <= i < |rest| ==> rest[i] == ents[i + 1];
      BeyondSlice(applied, rest);
      if rest != [] {
        assert rest[0].index == ents[0].index + 1;
      }
    }
  }

  /** The wrap-around is harmless for every batch that joins up with the applied prefix,
      exactly as long as the applied index is below the 64-bit maximum. */
  lemma SliceExact(applied: u64, ents: seq<Entry>)
    requires ents != [] && Contiguous(ents)
    requires ents[0].index <= applied + 1
    ensures EntriesToApply(applied, ents) == Suffix(Beyond(applied, ents)) <==> applied < MAX
  {
    BeyondSlice(applied, ents);
    if applied == MAX && ents[0].index == 0 {
      assert ents[|ents| - 1].index == |ents| - 1;
    }
  }

  /** What one run of the publish loop did: the new applied index, the messages handed over, the result. */
  datatype Published = Published(applied: u64, sent: seq<Message>, ok: bool)

  function Head(e: Entry): seq<Message> {
    if Carries(e) then [Data(e.body.payload)] else []
  }

  /** The messages of one entry: its data if it carries any, then nil if it ends the replay. */
  function Emit(e: Entry, last: u64): seq<Message> {
    Head(e) + if e.index == last then [Nil] else []
  }

  /** One round of the publish loop. The select statement lets `budget` sends through before it
      takes the stop branch. */
  function PublishOne(self: u64, last: u64, applied: u64, e: Entry, budget: nat): (r: Published)
    ensures |r.sent| <= budget
  {
    if Carries(e) && budget == 0 then Published(applied, [], false)
    else if e.body == Conf(RemoveNode, self) then Published(applied, [], false)
    else if e.index == last && budget == |Head(e)| then Published(e.index, Head(e), false)
    else Published(e.index, Emit(e, last), true)
  }

  /** The publish loop. */
  function PublishEntries(self: u64, last: u64, applied: u64, ents: seq<Entry>, budget: nat): (r: Published)
    ensures |r.sent| <= budget
    decreases |ents|, 0
  {
    if ents == [] then Published(applied, [], true)
    else Then(self, last, PublishOne(self, last, applied, ents[0], budget), ents[1..], budget)
  }

  /** Goes on publishing after `p`, unless `p` ended the loop. */
  function Then(self: u64, last: u64, p: Published, ents: seq<Entry>, budget: nat): (r: Published)
    requires |p.sent| <= budget
    ensures |r.sent| <= budget
    decreases |ents|, 1
  {
    if !p.ok then p
    else
      var rest := PublishEntries(self, last, p.applied, ents, budget - |p.sent|);
      rest.(sent := p.sent + rest.sent)
  }

  /** The full commit stream of some entries, with the nil that marks the end of replay. */
  function Stream(ents: seq<Entry>, last: u64): seq<Message> {
    if ents == [] then []
    else Emit(ents[0], last) + Stream(ents[1..], last)
  }

  /** The commit stream without nil messages. */
  function DataOf(ents: seq<Entry>): seq<Message> {
    if ents == [] then [] else Head(ents[0]) + DataOf(ents[1..])
  }

  /** The entries before the first one that removes this very node. */
  function UpToRemoval(self: u64, ents: seq<Entry>): (up: seq<Entry>)
    ensures up <= ents
    ensures forall e :: e in up && e.body.Conf? && e.body.change == RemoveNode ==> e.body.node != self
    ensures |up| < |ents| ==>
              ents[|up|].body.Conf? && ents[|up|].body.change == RemoveNode && ents[|up|].body.node == self
  {
    if ents == [] || ents[0].body == Conf(RemoveNode, self) then []
    else [ents[0]] + UpToRemoval(self, ents[1..])
  }

  function Take<T>(s: seq<T>, n: nat): seq<T> {
    if n < |s| then s[..n] else s
  }

  /** The number of messages that some entries lead to: one for every normal entry with data, and the nils. */
  function Messages(ents: seq<Entry>, last: u64): nat {
    if ents == [] then 0
    else
      var data := ents[0].body.Normal? && ents[0].body.payload != Empty;
      (if data then 1 else 0) + (if ents[0].index == last then 1 else 0) + Messages(ents[1..], last)
  }

  lemma Regroup<T>(a: seq<T>, b: seq<T>, c: seq<T>)
    ensures a + (b + c) == (a + b) + c
  {
  }

  lemma StreamFirst(e: Entry, rest: seq<Entry>, last: u64)
    ensures Stream([e] + rest, last) == Emit(e, last) + Stream(rest, last)
  {
    assert ([e] + rest)[1..] == rest;
  }

  lemma {:induction false} StreamConcat(a: seq<Entry>, b: seq<Entry>, last: u64)
    ensures Stream(a + b, last) == Stream(a, last) + Stream(b, last)
  {
    if a == [] {
      assert a + b == b;
    } else {
      StreamConcat(a[1..], b, last);
      assert a + b == [a[0]] + (a[1..] + b);
      StreamFirst(a[0], a[1..] + b, last);
      Regroup(Emit(a[0], last), Stream(a[1..], last), Stream(b, last));
    }
  }

  lemma {:induction false} StreamCount(ents: seq<Entry>, last: u64)
    ensures |Stream(ents, last)| == Messages(ents, last)
  {
    if ents != [] {
      StreamCount(ents[1..], last);
    }
  }

  /** What is in the stream, place by place: the data of an entry behind the messages of all entries before it, and the
      nil of entry `last` behind its data. */
  lemma StreamPlaces(ents: seq<Entry>, last: u64, k: nat)
    requires k < |ents|
    ensures |Stream(ents, last)| == Messages(ents, last)
    ensures var at := Messages(ents[..k], last);
            var data := ents[k].body.Normal? && ents[k].body.payload != Empty;
            && (data ==> at < |Stream(ents, last)| && Stream(ents, last)[at] == Data(ents[k].body.payload))
            && (ents[k].index == last ==>
                  var next := if data then at + 1 else at;
                  next < |Stream(ents, last)| && Stream(ents, last)[next] == Nil)
  {
    var before, e, rest := ents[..k], ents[k], ents[k + 1..];
    StreamCount(ents, last);
    StreamCount(before, last);
    assert ents == before + ([e] + rest);
    StreamConcat(before, [e] + rest, last);
    StreamFirst(e, rest, last);
  }

  /** One more entry on the channel, behind what has gone out. */
  lemma SentNext(first: seq<Message>, sofar: seq<Message>, e: Entry, last: u64)
    ensures first + (sofar + Emit(e, last)) == (first + sofar + Head(e)) + if e.index == last then [Nil] else []
  {
  }

  lemma TakeConcat<T>(a: seq<T>, b: seq<T>, n: nat)
    ensures Take(a + b, n) == if |a| <= n then a + Take(b, n - |a|) else Take(a, n)
  {
  }

  /** One publish loop hands over exactly the stream of its entries, cut at a stop or at the node's own removal. */
  lemma {:induction false} PublishExact(self: u64, last: u64, applied: u64, ents: seq<Entry>, budget: nat)
    ensures var r := PublishEntries(self, last, applied, ents, budget);
            && r.sent == Take(Stream(UpToRemoval(self, ents), last), budget)
            && (r.ok <==> UpToRemoval(self, ents) == ents && |Stream(ents, last)| <= budget)
            && (r.ok ==> r.applied == if ents == [] then applied else ents[|ents| - 1].index)
    decreases |ents|
  {
    if ents != [] && ents[0].body != Conf(RemoveNode, self) {
      var one := PublishOne(self, last, applied, ents[0], budget);
      var rest := ents[1..];
      var up := UpToRemoval(self, rest);
      assert UpToRemoval(self, ents)[1..] == up;
      assert ents == [ents[0]] + rest;
      TakeConcat(Emit(ents[0], last), Stream(up, last), budget);
      if one.ok {
        PublishExact(self, last, one.applied, rest, budget - |one.sent|);
      }
    }
  }

  /** Where a publish loop ends: the data of n entries has gone out and the applied index is that of the last of them.
      A nil is missing, or the next entry removes the node or has data that did not go out, or there is none. */
  lemma {:induction false} PublishHalts(self: u64, last: u64, applied: u64, ents: seq<Entry>, budget: nat)
    returns (n: nat)
    ensures n <= |ents|
    ensures var r := PublishEntries(self, last, applied, ents, budget);
            && r.applied == (if n == 0 then applied else ents[n - 1].index)
            && if |r.sent| < Messages(ents[..n], last) then
                 !r.ok && n > 0 && ents[n - 1].index == last && |r.sent| + 1 == Messages(ents[..n], last)
               else
                 && |r.sent| == Messages(ents[..n], last) && (r.ok <==> n == |ents|)
                 && (n < |ents| ==>
                       match ents[n].body
                       case Normal(p) => p != Empty && |r.sent| == budget
                       case Conf(change, node) => change == RemoveNode && node == self)
    decreases |ents|
  {
    n := 0;
    if ents != [] {
      var one := PublishOne(self, last, applied, ents[0], budget);
      var rest := ents[1..];
      if one.ok {
        var m := PublishHalts(self, last, one.applied, rest, budget - |one.sent|);
        n := m + 1;
        assert ents[..n][1..] == rest[..m];
      } else if ents[0].body != Conf(RemoveNode, self) && !(Carries(ents[0]) && budget == 0) {
        n := 1;
        assert ents[..1][1..] == [];
      }
    }
  }

  /** Publishing two batches in a row is publishing them as one. */
  lemma {:induction false} PublishInTwo(
      self: u64, last: u64, applied: u64, a: seq<Entry>, b: seq<Entry>, budget: nat)
    ensures PublishEntries(self, last, applied, a + b, budget) ==
            Then(self, last, PublishEntries(self, last, applied, a, budget), b, budget)
    decreases |a|
  {
    if a == [] {
      assert a + b == b;
    } else {
      var one := PublishOne(self, last, applied, a[0], budget);
      assert (a + b)[1..] == a[1..] + b;
      if one.ok {
        PublishInTwo(self, last, one.applied, a[1..], b, budget - |one.sent|);
        var first := PublishEntries(self, last, one.applied, a[1..], budget - |one.sent|);
        var rest := PublishEntries(self, last, first.applied, b, budget - |one.sent| - |first.sent|);
        Regroup(one.sent, first.sent, rest.sent);
      }
    }
  }

  /** A batch of committed entries, as positions in the committed log. */
  datatype Cut = Cut(lo: nat, hi: nat) {
    function Of(log: seq<Entry>): seq<Entry> {
      if lo <= hi <= |log| then log[lo..hi] else []
    }
  }

  datatype Status = Running | Stopped | Died

  datatype Served = Served(applied: u64, sent: seq<Message>, status: Status) {
    function After(before: seq<Message>): Served {
      this.(sent := before + sent)
    }
  }

  function Result(p: Published): Served {
    Served(p.applied, p.sent, if p.ok then Running else Stopped)
  }

  /** The Ready loop, restricted to committed entries: slice, publish, and leave on failure. */
  function Serve(self: u64, last: u64, applied: u64, log: seq<Entry>, cuts: seq<Cut>, budget: nat): Served
    decreases |cuts|
  {
    if cuts == [] then Served(applied, [], Running)
    else
      match EntriesToApply(applied, cuts[0].Of(log))
      case Fatal => Served(applied, [], Died)
      case Suffix(ents) =>
        var p := PublishEntries(self, last, applied, ents, budget);
        if !p.ok then Served(p.applied, p.sent, Stopped)
        else Serve(self, last, p.applied, log, cuts[1..], budget - |p.sent|).After(p.sent)
  }

  function Max(a: nat, b: nat): nat {
    if a < b then b else a
  }

  function Reach(applied: nat, cuts: seq<Cut>): nat
    decreases |cuts|
  {
    if cuts == [] then applied
    else Reach(Max(applied, cuts[0].hi), cuts[1..])
  }

  /** Every batch starts no later than right after what the batches before it reached. Overlap is allowed. */
  ghost predicate Deliverable(applied: nat, log: seq<Entry>, cuts: seq<Cut>)
    decreases |cuts|
  {
    cuts != [] ==>
      && cuts[0].lo <= cuts[0].hi <= |log|
      && cuts[0].lo <= applied
      && Deliverable(Max(applied, cuts[0].hi), log, cuts[1..])
  }

  lemma {:induction false} ReachBounds(applied: nat, log: seq<Entry>, cuts: seq<Cut>)
    requires applied <= |log| && Deliverable(applied, log, cuts)
    ensures applied <= Reach(applied, cuts) <= |log|
    decreases |cuts|
  {
    if cuts != [] {
      ReachBounds(Max(applied, cuts[0].hi), log, cuts[1..]);
    }
  }

  /** What a batch of the log contributes: the part that lies beyond the applied index. */
  lemma BatchSlice(applied: u64, log: seq<Entry>, c: Cut)
    requires IsLog(log) && c.lo <= c.hi <= |log| && c.lo <= applied <= |log|
    ensures EntriesToApply(applied, c.Of(log)) == Suffix(log[applied..Max(applied, c.hi)])
  {
    var ents := log[c.lo..c.hi];
    assert forall i :: 0 <= i < |ents| ==> ents[i] == log[c.lo + i];
    if ents != [] {
      assert ents[0].index == c.lo + 1;
      if applied < c.hi {
        assert ents[applied - c.lo..] == log[applied..c.hi];
      }
    }
  }

  /** Publishing a stretch of the log can be interrupted anywhere. */
  lemma PublishSpan(self: u64, last: u64, log: seq<Entry>, from: u64, mid: u64, to: u64, budget: nat)
    requires IsLog(log) && from <= mid <= to <= |log|
    ensures var p := PublishEntries(self, last, from, log[from..mid], budget);
            && (p.ok ==> p.applied == mid)
            && Result(PublishEntries(self, last, from, log[from..to], budget)) ==
               if !p.ok then Result(p)
               else Result(PublishEntries(self, last, mid, log[mid..to], budget - |p.sent|)).After(p.sent)
  {
    assert log[from..to] == log[from..mid] + log[mid..to];
    PublishInTwo(self, last, from, log[from..mid], log[mid..to], budget);
    PublishReaches(self, last, log, from, mid, budget);
  }

  lemma {:induction false} PublishApplies(self: u64, last: u64, applied: u64, ents: seq<Entry>, budget: nat)
    ensures var p := PublishEntries(self, last, applied, ents, budget);
            p.ok ==> p.applied == if ents == [] then applied else ents[|ents| - 1].index
    decreases |ents|
  {
    if ents != [] {
      var one := PublishOne(self, last, applied, ents[0], budget);
      PublishApplies(self, last, one.applied, ents[1..], budget - |one.sent|);
    }
  }

  lemma PublishReaches(self: u64, last: u64, log: seq<Entry>, from: u64, to: u64, budget: nat)
    requires IsLog(log) && from <= to <= |log|
    ensures var p := PublishEntries(self, last, from, log[from..to], budget);
            p.ok ==> p.applied == to
  {
    PublishApplies(self, last, from, log[from..to], budget);
    if from < to {
      assert log[from..to][to - from - 1] == log[to - 1];
    }
  }

  /** A first part, and what comes after it if it succeeds. */
  function Joined(p: Published, rest: Served): Served {
    if p.ok then rest.After(p.sent) else Result(p)
  }

  lemma ServeJoins(
      self: u64, last: u64, applied: u64, log: seq<Entry>, cuts: seq<Cut>, budget: nat,
      ents: seq<Entry>, p: Published, rest: Served)
    requires cuts != [] && EntriesToApply(applied, cuts[0].Of(log)) == Suffix(ents)
    requires p == PublishEntries(self, last, applied, ents, budget)
    requires p.ok ==> rest == Serve(self, last, p.applied, log, cuts[1..], budget - |p.sent|)
    ensures Serve(self, last, applied, log, cuts, budget) == Joined(p, rest)
  {
  }

  lemma PublishJoins(
      self: u64, last: u64, log: seq<Entry>, from: u64, mid: u64, to: u64, budget: nat, p: Published, rest: Served)
    requires IsLog(log) && from <= mid <= to <= |log|
    requires p == PublishEntries(self, last, from, log[from..mid], budget)
    requires p.ok ==> rest == Result(PublishEntries(self, last, mid, log[mid..to], budget - |p.sent|))
    ensures p.ok ==> p.applied == mid
    ensures Result(PublishEntries(self, last, from, log[from..to], budget)) == Joined(p, rest)
  {
    PublishSpan(self, last, log, from, mid, to, budget);
  }

  /** Serving one batch and then the rest is publishing all of it, if serving the rest is publishing the rest. */
  lemma BothJoin(
      self: u64, last: u64, applied: u64, log: seq<Entry>, cuts: seq<Cut>, budget: nat,
      mid: u64, reach: u64, p: Published)
    requires IsLog(log) && cuts != [] && applied <= mid <= reach <= |log|
    requires EntriesToApply(applied, cuts[0].Of(log)) == Suffix(log[applied..mid])
    requires p == PublishEntries(self, last, applied, log[applied..mid], budget)
    ensures Serve(self, last, mid, log, cuts[1..], budget - |p.sent|) ==
            Result(PublishEntries(self, last, mid, log[mid..reach], budget - |p.sent|)) ==>
              Serve(self, last, applied, log, cuts, budget) ==
              Result(PublishEntries(self, last, applied, log[applied..reach], budget))
  {
    var rest := Result(PublishEntries(self, last, mid, log[mid..reach], budget - |p.sent|));
    PublishJoins(self, last, log, applied, mid, reach, budget, p, rest);
    if Serve(self, last, mid, log, cuts[1..], budget - |p.sent|) == rest {
      ServeJoins(self, last, applied, log, cuts, budget, log[applied..mid], p, rest);
    }
  }

  /** How far the first batch reaches, and that the others go on from there. */
  lemma FirstBatch(applied: u64, log: seq<Entry>, cuts: seq<Cut>) returns (mid: u64, reach: u64)
    requires IsLog(log) && applied <= |log| && cuts != [] && Deliverable(applied, log, cuts)
    ensures applied <= mid <= reach <= |log| && reach == Reach(applied, cuts) == Reach(mid, cuts[1..])
    ensures Deliverable(mid, log, cuts[1..])
    ensures EntriesToApply(applied, cuts[0].Of(log)) == Suffix(log[applied..mid])
  {
    mid := Max(applied, cuts[0].hi);
    ReachBounds(mid, log, cuts[1..]);
    reach := Reach(mid, cuts[1..]);
    BatchSlice(applied, log, cuts[0]);
  }

  /** However the log is cut into batches, the Ready loop does what one publish loop over
      everything the batches reach would do. */
  lemma {:induction false} BatchingIsInvisible(
      self: u64, last: u64, applied: u64, log: seq<Entry>, cuts: seq<Cut>, budget: nat)
    requires IsLog(log) && applied <= |log| && Deliverable(applied, log, cuts)
    ensures applied <= Reach(applied, cuts) <= |log|
    ensures Serve(self, last, applied, log, cuts, budget) ==
            Result(PublishEntries(self, last, applied, log[applied..Reach(applied, cuts)], budget))
    decreases |cuts|
  {
    if cuts == [] {
      assert log[applied..applied] == [];
    } else {
      var mid, reach := FirstBatch(applied, log, cuts);
      var p := PublishEntries(self, last, applied, log[applied..mid], budget);
      BatchingIsInvisible(self, last, mid, log, cuts[1..], budget - |p.sent|);
      BothJoin(self, last, applied, log, cuts, budget, mid, reach, p);
    }
  }

  /** The commit stream is that of the log, each entry once and in log order, whatever the batching;
      a stop or the node's own removal cuts it to a prefix. */
  lemma StreamWhateverTheBatching(
      self: u64, last: u64, applied: u64, log: seq<Entry>, cuts: seq<Cut>, budget: nat)
    requires IsLog(log) && applied <= |log| && Deliverable(applied, log, cuts)
    ensures applied <= Reach(applied, cuts) <= |log|
    ensures var r := Serve(self, last, applied, log, cuts, budget);
            var todo := log[applied..Reach(applied, cuts)];
            && r.status != Died
            && r.sent == Take(Stream(UpToRemoval(self, todo), last), budget)
            && (r.status == Running <==> UpToRemoval(self, todo) == todo && |Stream(todo, last)| <= budget)
            && (r.status == Running ==> r.applied == Reach(applied, cuts))
  {
    BatchingIsInvisible(self, last, applied, log, cuts, budget);
    PublishExact(self, last, applied, log[applied..Reach(applied, cuts)], budget);
  }

  lemma {:induction false} StreamWithoutNil(ents: seq<Entry>, last: u64)
    requires forall e :: e in ents ==> e.index != last
    ensures Stream(ents, last) == DataOf(ents)
  {
    if ents != [] {
      StreamWithoutNil(ents[1..], last);
    }
  }

  lemma {:induction false} StreamEndingInLast(ents: seq<Entry>, last: u64)
    requires ents != [] && ents[|ents| - 1].index == last
    requires forall i :: 0 <= i < |ents| - 1 ==> ents[i].index != last
    ensures Stream(ents, last) == DataOf(ents) + [Nil]
  {
    if |ents| > 1 {
      StreamEndingInLast(ents[1..], last);
      Regroup(Head(ents[0]), DataOf(ents[1..]), [Nil]);
    } else {
      assert ents[1..] == [];
    }
  }

  /** The nil message comes exactly once, right behind entry `last`, and not at all if that entry is not reached. */
  lemma NilRightAfterLast(log: seq<Entry>, from: nat, to: nat, last: u64)
    requires IsLog(log) && from <= to <= |log|
    ensures Stream(log[from..to], last) ==
            if from < last <= to then DataOf(log[from..last]) + [Nil] + DataOf(log[last..to])
            else DataOf(log[from..to])
  {
    if from < last <= to {
      var a, b := log[from..last], log[last..to];
      assert log[from..to] == a + b;
      StreamConcat(a, b, last);
      StreamWithoutNil(b, last);
      StreamEndingInLast(a, last);
    } else {
      StreamWithoutNil(log[from..to], last);
    }
  }
}
