/** The raft node: its indexes, its write-ahead log, its snapshot directory and its commit channel (raft.go). */
module RaftNode {
  import opened Options
  import opened Words
  import opened RaftTypes
  import opened RaftPublish

  /** Which of the two writes of saveSnap succeed. */
  datatype Writes = Writes(mark: bool, file: bool) {
    predicate Both() {
      mark && file
    }
  }

  /** The fields of raftNode that the local code maintains. `offset` is the index at which the in-memory
      raft log begins, `sent` is everything handed over on commitC so far. */
  datatype Node = Node(
    self: u64, last: u64, snapshotIndex: u64, applied: u64, offset: u64,
    wal: seq<Entry>, marks: set<u64>, snaps: map<u64, Store>, sent: seq<Message>)
  {
    /** Every snapshot file has a snapshot record of the same index in the WAL; a new WAL records index 0. */
    ghost predicate Recorded() {
      0 in marks && forall i :: i in snaps ==> i in marks
    }

    ghost predicate Ordered() {
      offset <= snapshotIndex <= applied
    }

    /** saveSnap: the WAL record first, and the snapshot file only if the record was written. */
    function Snapped(index: u64, data: Store, w: Writes): Node {
      this.(marks := if w.mark then marks + {index} else marks,
            snaps := if w.Both() then snaps[index := data] else snaps)
    }

    function Advanced(p: Published): Node {
      this.(applied := p.applied, sent := sent + p.sent)
    }

    function Installed(index: u64): Node {
      this.(snapshotIndex := index, applied := index, offset := index, sent := sent + [Nil])
    }

    /** The state with which a process starts on what is on disk. */
    ghost function Booted(): Node {
      var start := Start(snaps);
      this.(last := LastSaved(wal, start), snapshotIndex := start, applied := start, offset := start, sent := [])
    }
  }

  ghost function Largest(s: set<u64>): (n: u64)
    requires s != {}
    ensures n in s && forall i :: i in s ==> i <= n
  {
    var x :| x in s;
    assert forall i :: i in s ==> i == x || i in s - {x};
    if s - {x} == {} then x
    else
      var y := Largest(s - {x});
      if x < y then y else x
  }

  /** The index of the newest snapshot file, where a process starts; zero if there is none. */
  ghost function Start(snaps: map<u64, Store>): u64 {
    if snaps.Keys == {} then 0 else Largest(snaps.Keys)
  }

  lemma StartGrows(snaps: map<u64, Store>, i: u64, data: Store)
    ensures Start(snaps[i := data]) == if i > Start(snaps) then i else Start(snaps)
    ensures Start(snaps[i := data]) in snaps[i := data]
  {
    assert i in snaps[i := data].Keys;
    if snaps.Keys != {} {
      assert Largest(snaps.Keys) in snaps[i := data].Keys;
    }
  }

  /** The index of the last entry that reading the WAL from `start` yields; zero if it yields none. */
  function LastSaved(wal: seq<Entry>, start: u64): u64 {
    if wal == [] then 0
    else if wal[|wal| - 1].index > start then wal[|wal| - 1].index
    else LastSaved(wal[..|wal| - 1], start)
  }

  predicate NeedsSnapshot(applied: u64, snapshotIndex: u64, snapCount: u64) {
    WrapSub(applied, snapshotIndex) > snapCount
  }

  function CompactIndex(applied: u64, catchUp: u64): u64 {
    if applied > catchUp then applied - catchUp else 1
  }

  datatype Trigger = NotNeeded | Taken | Panicked

  /** maybeTriggerSnapshot. It panics if a write fails, and if the in-memory log is asked to compact at or before its
      own beginning. */
  function Triggered(n: Node, data: Store, w: Writes, snapCount: u64, catchUp: u64): (Node, Trigger) {
    if !NeedsSnapshot(n.applied, n.snapshotIndex, snapCount) then (n, NotNeeded)
    else
      var compact := CompactIndex(n.applied, catchUp);
      var saved := n.Snapped(n.applied, data, w);
      if !w.Both() || compact <= n.offset then (saved, Panicked)
      else (saved.(offset := compact, snapshotIndex := n.applied), Taken)
  }

  datatype Outcome = GoesOn | Leaves | Exits | Panics

  /** Slicing and publishing a batch of committed entries. */
  function Committed(n: Node, ents: seq<Entry>, budget: nat): (Node, Outcome) {
    match EntriesToApply(n.applied, ents)
    case Fatal => (n, Exits)
    case Suffix(todo) =>
      var p := RaftPublish.PublishEntries(n.self, n.last, n.applied, todo, budget);
      (n.Advanced(p), if p.ok then GoesOn else Leaves)
  }

  /** What raft hands over in one Ready, and how the writes that it leads to turn out. */
  datatype Batch = Batch(entries: seq<Entry>, snap: Option<(u64, Store)>, committed: seq<Entry>,
                         saved: bool, received: Writes, own: Writes)
  {
    /** Committed entries have consecutive indexes from one on. */
    ghost predicate Valid() {
      InOrder(committed)
    }

    predicate Stale(applied: u64) {
      snap.Some? && snap.value.0 <= applied
    }
  }

  ghost predicate InOrder(ents: seq<Entry>) {
    Contiguous(ents) && (ents != [] ==> ents[0].index >= 1)
  }

  /** The node after saving the entries and, if there is one, saving and installing a snapshot that is not stale.
      Failing writes go unnoticed here. */
  function Accepted(n: Node, rd: Batch): Node {
    var saved := if rd.saved then n.(wal := n.wal + rd.entries) else n;
    if rd.snap.None? then saved
    else
      var snapped := saved.Snapped(rd.snap.value.0, rd.snap.value.1, rd.received);
      if rd.Stale(n.applied) then snapped else snapped.Installed(rd.snap.value.0)
  }

  /** The Ready branch: save, install a received snapshot, publish, perhaps take a snapshot. */
  function Handled(n: Node, rd: Batch, budget: nat, data: Store, snapCount: u64, catchUp: u64): (Node, Outcome) {
    if rd.Stale(n.applied) then (Accepted(n, rd), Exits)
    else
      var (done, r) := Committed(Accepted(n, rd), rd.committed, budget);
      if r != GoesOn then (done, r)
      else
        var (last, t) := Triggered(done, data, rd.own, snapCount, catchUp);
        (last, if t == Panicked then Panics else GoesOn)
  }

  class Raft {
    const self: u64
    const snapCount: u64
    const catchUp: u64
    var last: u64
    var snapshotIndex: u64
    var applied: u64
    var offset: u64
    var wal: seq<Entry>
    var marks: set<u64>
    var snaps: map<u64, Store>
    var sent: seq<Message>

    function Here(): Node
      reads this
    {
      Node(self, last, snapshotIndex, applied, offset, wal, marks, snaps, sent)
    }

    /** Starts on what is on disk; the WAL can only be opened at a snapshot that it has recorded. */
    constructor (disk: Node, snapCount: u64, catchUp: u64)
      requires disk.Recorded()
      ensures self == disk.self && this.snapCount == snapCount && this.catchUp == catchUp
      ensures Start(disk.snaps) in disk.marks
      ensures Here() == disk.Booted().(sent := if disk.Booted().last == 0 then [Nil] else [])
      ensures snapshotIndex == applied == offset == Start(disk.snaps)
      ensures wal == disk.wal && marks == disk.marks && snaps == disk.snaps
      ensures Here().Recorded() && Here().Ordered()
    {
      var start: u64 := 0;
      var keys := disk.snaps.Keys;
      while keys != {}
        invariant keys <= disk.snaps.Keys
        invariant start == 0 || start in disk.snaps
        invariant forall i :: i in disk.snaps ==> i in keys || i <= start
        decreases keys
      {
        var i :| i in keys;
        if i > start {
          start := i;
        }
        keys := keys - {i};
      }
      if disk.snaps.Keys != {} {
        assert Largest(disk.snaps.Keys) in disk.snaps;
      }
      assert start == Start(disk.snaps);
      self, this.snapCount, this.catchUp := disk.self, snapCount, catchUp;
      wal, marks, snaps := disk.wal, disk.marks, disk.snaps;
      snapshotIndex, applied, offset := start, start, start;
      last := LastSaved(disk.wal, start);
      sent := if LastSaved(disk.wal, start) == 0 then [Nil] else [];
    }

    /** The WAL record goes first, so that no failure leaves a snapshot file without one. */
    method SaveSnap(index: u64, data: Store, w: Writes) returns (ok: bool)
      modifies this
      ensures ok == w.Both()
      ensures Here() == old(Here()).Snapped(index, data, w)
      ensures old(Here().Recorded()) ==> Here().Recorded()
    {
      if !w.mark {
        return false;
      }
      marks := marks + {index};
      if !w.file {
        return false;
      }
      snaps := snaps[index := data];
      return true;
    }

    /** One round of the loop below, with room for `left` sends. */
    method PublishEntry(e: Entry, left: nat) returns (ok: bool, rest: nat)
      modifies this
      ensures var p := PublishOne(self, old(last), old(applied), e, left);
              && ok == p.ok
              && rest == left - |p.sent|
              && Here() == old(Here()).Advanced(p)
    {
      rest := left;
      match e.body {
        case Normal(payload) =>
          if payload != Empty {
            if rest == 0 {
              return false, rest;
            }
            sent, rest := sent + [Data(payload)], rest - 1;
          }
        case Conf(change, node) =>
          if change == RemoveNode && node == self {
            return false, rest;
          }
      }
      assert sent == old(sent) + Head(e);
      applied := e.index;
      if e.index == last {
        if rest == 0 {
          return false, rest;
        }
        sent, rest := sent + [Nil], rest - 1;
      }
      assert sent == old(sent) + Emit(e, last);
      return true, rest;
    }

    /** Hands over the messages of the entries until all are published, stop is chosen or the node is removed. */
    method PublishEntries(ents: seq<Entry>, budget: nat) returns (ok: bool)
      modifies this
      ensures var p := RaftPublish.PublishEntries(self, old(last), old(applied), ents, budget);
              && ok == p.ok
              && Here() == old(Here()).Advanced(p)
    {
      ghost var all := RaftPublish.PublishEntries(self, last, applied, ents, budget);
      ghost var done: seq<Message> := [];
      var i, left := 0, budget;
      while i < |ents|
        invariant i <= |ents| && |done| + left == budget
        invariant Here() == old(Here()).(applied := applied, sent := old(sent) + done)
        invariant all == Then(self, last, Published(applied, done, true), ents[i..], budget)
      {
        assert ents[i..][0] == ents[i] && ents[i..][1..] == ents[i + 1..];
        Resume(self, last, Published(applied, done, true), ents[i..], budget);
        ghost var one := PublishOne(self, last, applied, ents[i], left);
        Regroup(old(sent), done, one.sent);
        done := done + one.sent;
        ok, left := PublishEntry(ents[i], left);
        if !ok {
          return;
        }
        i := i + 1;
      }
      return true;
    }

    /** Makes the consumer load the snapshot; false stands for the fatal exit on a stale snapshot. */
    method PublishSnapshot(index: u64) returns (ok: bool)
      modifies this
      ensures ok <==> index > old(applied)
      ensures Here() == if ok then old(Here()).Installed(index) else old(Here())
    {
      if index <= applied {
        return false;
      }
      sent := sent + [Nil];
      snapshotIndex, applied, offset := index, index, index;
      return true;
    }

    /** Takes and saves a snapshot, then compacts; no panic when the writes succeed and snapCount is at least the
        catch-up length. */
    method MaybeTriggerSnapshot(data: Store, w: Writes) returns (r: Trigger)
      requires Here().Ordered() && Here().Recorded()
      modifies this
      ensures (Here(), r) == Triggered(old(Here()), data, w, snapCount, catchUp)
      ensures r == NotNeeded <==> old(applied) - old(snapshotIndex) <= snapCount
      ensures Here().Ordered() && Here().Recorded()
      ensures r != Panicked ==> applied - snapshotIndex <= snapCount
      ensures w.Both() && snapCount >= catchUp ==> r != Panicked
      ensures snapCount >= catchUp && r == Taken ==>
                old(offset) <= old(snapshotIndex) < offset && applied - offset == catchUp
    {
      if WrapSub(applied, snapshotIndex) <= snapCount {
        return NotNeeded;
      }
      var ok := SaveSnap(applied, data, w);
      if !ok {
        return Panicked;
      }
      var compact := CompactIndex(applied, catchUp);
      if compact <= offset {
        return Panicked;
      }
      offset := compact;
      snapshotIndex := applied;
      return Taken;
    }

    /** Slices a batch of committed entries and publishes what is new in it. */
    method PublishCommitted(committed: seq<Entry>, budget: nat) returns (r: Outcome)
      requires InOrder(committed)
      modifies this
      ensures (Here(), r) == Committed(old(Here()), committed, budget) && applied >= old(applied)
      ensures Streams(old(Here()), committed, budget, Here(), r)
    {
      CommittedStream(Here(), committed, budget);
      match EntriesToApply(applied, committed) {
        case Fatal => return Exits;
        case Suffix(ents) =>
          AppliedNeverFalls(self, last, applied, committed, budget);
          var ok := PublishEntries(ents, budget);
          return if ok then GoesOn else Leaves;
      }
    }

    /** The first half of the Ready branch; false stands for the fatal exit on a stale snapshot. */
    method Accept(rd: Batch) returns (ok: bool)
      requires Here().Ordered() && Here().Recorded()
      modifies this
      ensures ok == !rd.Stale(old(applied)) && Here() == Accepted(old(Here()), rd)
      ensures Here().Ordered() && Here().Recorded()
    {
      if rd.saved {
        wal := wal + rd.entries;
      }
      ok := true;
      if rd.snap.Some? {
        var saved := SaveSnap(rd.snap.value.0, rd.snap.value.1, rd.received);
        ok := PublishSnapshot(rd.snap.value.0);
      }
    }

    /** The Ready branch of serveChannels: save, install a received snapshot, publish, perhaps take a snapshot.
        `data` is what getSnapshot would return. */
    method HandleReady(rd: Batch, budget: nat, data: Store) returns (r: Outcome)
      requires Here().Ordered() && Here().Recorded() && rd.Valid()
      modifies this
      ensures (Here(), r) == Handled(old(Here()), rd, budget, data, snapCount, catchUp)
      ensures Here().Ordered() && Here().Recorded()
      ensures r == GoesOn ==> applied - snapshotIndex <= snapCount
      ensures rd.own.Both() && snapCount >= catchUp ==> r != Panics
    {
      var ok := Accept(rd);
      if !ok {
        return Exits;
      }
      r := PublishCommitted(rd.committed, budget);
      if r == GoesOn {
        var t := MaybeTriggerSnapshot(data, rd.own);
        r := if t == Panicked then Panics else GoesOn;
      }
    }
  }

  /** What a batch puts on the channel, and how publishing it ends. At the 64-bit maximum nothing fits behind. */
  ghost predicate Streams(n: Node, ents: seq<Entry>, budget: nat, m: Node, r: Outcome) {
    var todo := Beyond(n.applied, ents);
    if ents != [] && (n.applied == MAX || ents[0].index > n.applied + 1) then r == Exits && m.sent == n.sent
    else
      && m.sent == n.sent + Take(Stream(UpToRemoval(n.self, todo), n.last), budget)
      && (r == Leaves <==> UpToRemoval(n.self, todo) != todo || |Stream(todo, n.last)| > budget)
  }

  lemma CommittedStream(n: Node, ents: seq<Entry>, budget: nat)
    requires InOrder(ents)
    ensures Streams(n, ents, budget, Committed(n, ents, budget).0, Committed(n, ents, budget).1)
  {
    if ents != [] && ents[0].index <= n.applied + 1 {
      SliceExact(n.applied, ents);
    }
    PublishExact(n.self, n.last, n.applied, Beyond(n.applied, ents), budget);
  }

  lemma TriggeredSilent(n: Node, data: Store, w: Writes, snapCount: u64, catchUp: u64)
    ensures Triggered(n, data, w, snapCount, catchUp).0.sent == n.sent
  {
  }

  /** What a Ready puts on the channel, and how it ends: a received snapshot that is not newer than what is applied
      is fatal, and otherwise the stream of the new committed entries follows the signal, whatever becomes of the
      writes. */
  lemma ReadyStream(n: Node, rd: Batch, budget: nat, data: Store, snapCount: u64, catchUp: u64)
    requires rd.Valid()
    ensures var (m, r) := Handled(n, rd, budget, data, snapCount, catchUp);
            if rd.Stale(n.applied) then r == Exits && m.sent == n.sent
            else
              var ready := if rd.snap.Some? then n.(applied := rd.snap.value.0, sent := n.sent + [Nil]) else n;
              Streams(ready, rd.committed, budget, m, r)
  {
    if !rd.Stale(n.applied) {
      var ready := Accepted(n, rd);
      CommittedStream(ready, rd.committed, budget);
      TriggeredSilent(Committed(ready, rd.committed, budget).0, data, rd.own, snapCount, catchUp);
    }
  }

  /** The index that a snapshot is taken relative to. */
  function Base(n: Node, rd: Batch): u64 {
    if rd.snap.Some? then rd.snap.value.0 else n.snapshotIndex
  }

  /** Publishing has come to its end, and more than snapCount entries are applied since the last snapshot. */
  predicate Due(n: Node, rd: Batch, m: Node, r: Outcome, snapCount: u64) {
    (r == GoesOn || r == Panics) && m.applied - Base(n, rd) > snapCount
  }

  /** What publishing a batch does to the indexes: nothing but move the applied one to the last new entry. */
  lemma CommittedIndexes(n: Node, ents: seq<Entry>, budget: nat)
    requires InOrder(ents)
    ensures var (m, r) := Committed(n, ents, budget);
            var todo := Beyond(n.applied, ents);
            && m == n.(applied := m.applied, sent := m.sent) && m.applied >= n.applied && r != Panics
            && (r == GoesOn ==> m.applied == if todo == [] then n.applied else todo[|todo| - 1].index)
  {
    if EntriesToApply(n.applied, ents).Suffix? {
      AppliedNeverFalls(n.self, n.last, n.applied, ents, budget);
      if ents != [] {
        SliceExact(n.applied, ents);
      }
      PublishApplies(n.self, n.last, n.applied, Beyond(n.applied, ents), budget);
    }
  }

  /** The applied index never falls behind the snapshot of the Ready, and it reaches the last new committed entry. */
  lemma ReadyApplied(n: Node, rd: Batch, budget: nat, data: Store, snapCount: u64, catchUp: u64)
    requires rd.Valid() && !rd.Stale(n.applied)
    ensures var (m, r) := Handled(n, rd, budget, data, snapCount, catchUp);
            var ready := if rd.snap.Some? then rd.snap.value.0 else n.applied;
            var todo := Beyond(ready, rd.committed);
            && m.applied >= ready
            && (r == GoesOn || r == Panics ==> m.applied == if todo == [] then ready else todo[|todo| - 1].index)
  {
    CommittedIndexes(Accepted(n, rd), rd.committed, budget);
  }

  /** What becomes of the snapshot under an index when it is saved, if it is the one, and which writes succeed. */
  ghost predicate Saves(n: Node, k: u64, it: bool, data: Store, w: Writes, m: Node) {
    && (k in m.marks <==> k in n.marks || (it && w.mark))
    && (k in m.snaps <==> k in n.snaps || (it && w.mark && w.file))
    && (k in m.snaps ==> m.snaps[k] == if it && w.mark && w.file then data else n.snaps[k])
  }

  /** What the first half of a Ready leaves on disk, whichever writes fail. */
  lemma AcceptedDisk(n: Node, rd: Batch, k: u64)
    ensures var m := Accepted(n, rd);
            var it := rd.snap.Some? && k == rd.snap.value.0;
            && m.wal == n.wal + (if rd.saved then rd.entries else [])
            && Saves(n, k, it, if it then rd.snap.value.1 else map[], rd.received, m)
  {
    assert n.wal + [] == n.wal;
  }

  lemma TriggeredDisk(n: Node, data: Store, w: Writes, snapCount: u64, catchUp: u64, k: u64)
    requires n.snapshotIndex <= n.applied
    ensures var m := Triggered(n, data, w, snapCount, catchUp).0;
            && m.wal == n.wal && m.applied == n.applied
            && Saves(n, k, n.applied - n.snapshotIndex > snapCount && k == n.applied, data, w, m)
  {
  }

  /** What a Ready leaves on disk, however it ends and whichever writes fail: the entries, the received snapshot, and
      then the node's own one. */
  lemma ReadyDisk(n: Node, rd: Batch, budget: nat, data: Store, snapCount: u64, catchUp: u64, k: u64) returns (a: Node)
    requires n.Ordered() && rd.Valid()
    ensures var (m, r) := Handled(n, rd, budget, data, snapCount, catchUp);
            var received := rd.snap.Some? && k == rd.snap.value.0;
            && m.wal == n.wal + (if rd.saved then rd.entries else [])
            && Saves(n, k, received, if received then rd.snap.value.1 else map[], rd.received, a)
            && Saves(a, k, Due(n, rd, m, r, snapCount) && k == m.applied, data, rd.own, m)
  {
    a := Accepted(n, rd);
    AcceptedDisk(n, rd, k);
    if !rd.Stale(n.applied) {
      CommittedIndexes(a, rd.committed, budget);
      var (done, r) := Committed(a, rd.committed, budget);
      if r == GoesOn {
        TriggeredDisk(done, data, rd.own, snapCount, catchUp, k);
      }
    }
  }

  /** Where a Ready that goes on leaves the snapshot index and the beginning of the in-memory log, and when it panics
      instead: a write of a due snapshot fails, or the log begins at or behind the place to compact at. */
  lemma ReadyIndexes(n: Node, rd: Batch, budget: nat, data: Store, snapCount: u64, catchUp: u64)
    requires n.Ordered() && rd.Valid() && !rd.Stale(n.applied)
    ensures var (m, r) := Handled(n, rd, budget, data, snapCount, catchUp);
            var due := Due(n, rd, m, r, snapCount);
            var begin := if rd.snap.Some? then rd.snap.value.0 else n.offset;
            var compact := if m.applied > catchUp then m.applied - catchUp else 1;
            && (r == Panics <==> due && (!rd.own.mark || !rd.own.file || compact <= begin))
            && (r == GoesOn ==> m.snapshotIndex == (if due then m.applied else Base(n, rd)))
            && (r == GoesOn ==> m.offset == (if due then compact else begin))
            && m.self == n.self && m.last == n.last
  {
    CommittedIndexes(Accepted(n, rd), rd.committed, budget);
  }

  lemma BeyondGrows(applied: u64, ents: seq<Entry>)
    requires Contiguous(ents)
    ensures Contiguous(Beyond(applied, ents))
    ensures Beyond(applied, ents) != [] ==> Beyond(applied, ents)[0].index > applied
  {
    BeyondSlice(applied, ents);
    var r := Beyond(applied, ents);
    if ents != [] && applied >= ents[0].index {
      assert forall i :: 0 <= i < |r| ==> r[i] == ents[applied - ents[0].index + 1 + i];
    }
  }

  lemma {:induction false} AppliedGrows(self: u64, last: u64, applied: u64, ents: seq<Entry>, budget: nat)
    requires Contiguous(ents) && (ents != [] ==> ents[0].index > applied)
    ensures RaftPublish.PublishEntries(self, last, applied, ents, budget).applied >= applied
    decreases |ents|
  {
    if ents != [] {
      var one := PublishOne(self, last, applied, ents[0], budget);
      if one.ok {
        assert forall i :: 0 <= i < |ents| - 1 ==> ents[1..][i] == ents[i + 1];
        AppliedGrows(self, last, one.applied, ents[1..], budget - |one.sent|);
      }
    }
  }

  lemma AppliedNeverFalls(self: u64, last: u64, applied: u64, ents: seq<Entry>, budget: nat)
    requires InOrder(ents) && EntriesToApply(applied, ents).Suffix?
    ensures var todo := EntriesToApply(applied, ents).ents;
            RaftPublish.PublishEntries(self, last, applied, todo, budget).applied >= applied
  {
    if ents != [] {
      SliceExact(applied, ents);
    }
    BeyondGrows(applied, ents);
    AppliedGrows(self, last, applied, Beyond(applied, ents), budget);
  }

  /** One more round of the publish loop, from the middle of a run. */
  lemma Resume(self: u64, last: u64, p: Published, ents: seq<Entry>, budget: nat)
    requires p.ok && ents != [] && |p.sent| <= budget
    ensures var one := PublishOne(self, last, p.applied, ents[0], budget - |p.sent|);
            Then(self, last, p, ents, budget) ==
            Then(self, last, one.(sent := p.sent + one.sent), ents[1..], budget)
  {
    var one := PublishOne(self, last, p.applied, ents[0], budget - |p.sent|);
    if one.ok {
      assert |p.sent + one.sent| == |p.sent| + |one.sent|;
      var rest := RaftPublish.PublishEntries(self, last, one.applied, ents[1..], budget - |p.sent| - |one.sent|);
      Regroup(p.sent, one.sent, rest.sent);
      assert RaftPublish.PublishEntries(self, last, p.applied, ents, budget - |p.sent|) ==
             rest.(sent := one.sent + rest.sent);
    } else {
      assert RaftPublish.PublishEntries(self, last, p.applied, ents, budget - |p.sent|) == one;
    }
  }
}
