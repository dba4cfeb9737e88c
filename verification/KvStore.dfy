/** The consumer of the commit stream: a key-value map rebuilt from puts and snapshots (kvstore.go). */
module KvStore {
  import opened RaftTypes

  /** What the snapshotter finds, with the JSON already parsed. */
  datatype Load = NoSnapshot | Loaded(data: Store) | LoadError

  /** A message taken from commitC; a nil comes with what the snapshotter then loads. */
  datatype Received = Commit(payload: Payload) | Signal(load: Load)

  /** How reading ends: still waiting on the channel, returned to the caller, or the process died. */
  datatype End = Waiting | CaughtUp | Died

  datatype Reading = Reading(kv: Store, used: nat, end: End)

  // ---------------------------------------------------------------- JSON

  function CleanSymbol(s: Symbol): Symbol {
    if s.Stray? then Rune('\U{FFFD}') else s
  }

  /** json.Marshal replaces every stray byte by the replacement character. */
  function Clean(t: Text): Text {
    seq(|t|, i requires 0 <= i < |t| => CleanSymbol(t[i]))
  }

  predicate Valid(t: Text) {
    forall i :: 0 <= i < |t| ==> t[i].Rune?
  }

  ghost predicate ValidStore(m: Store) {
    forall k :: k in m ==> Valid(k) && Valid(m[k])
  }

  /** Key k' of the image is the cleaned form of some key, with that one's value. */
  ghost predicate HasOrigin(m: Store, m': Store, k': Text) {
    k' in m' && exists k :: k in m && Clean(k) == k' && Clean(m[k]) == m'[k']
  }

  /** m' is what unmarshalling a marshalled m can give; cleaned keys may collide. */
  ghost predicate JsonImage(m: Store, m': Store) {
    && (forall k {:trigger Clean(k)} :: k in m ==> Clean(k) in m')
    && (forall k' {:trigger HasOrigin(m, m', k')} :: k' in m' ==> HasOrigin(m, m', k'))
  }

  lemma CleanIffValid(t: Text)
    ensures Valid(Clean(t))
    ensures Clean(t) == t <==> Valid(t)
  {
    if Clean(t) == t {
      assert forall i :: 0 <= i < |t| ==> Clean(t)[i] == t[i];
    }
  }

  /** A map survives the trip through a snapshot exactly when all its keys and values are valid UTF-8. */
  lemma SnapshotFaithful(m: Store, m': Store)
    requires JsonImage(m, m')
    ensures m' == m <==> ValidStore(m)
  {
    forall k' | k' in m'
      ensures Valid(k') && Valid(m'[k'])
      ensures ValidStore(m) ==> k' in m && m'[k'] == m[k']
    {
      assert HasOrigin(m, m', k');
      var k :| k in m && Clean(k) == k' && Clean(m[k]) == m'[k'];
      CleanIffValid(k);
      CleanIffValid(m[k]);
    }
    if ValidStore(m) {
      forall k | k in m
        ensures k in m'
      {
        CleanIffValid(k);
        assert Clean(k) in m';
      }
      assert m'.Keys == m.Keys;
    }
  }

  /** A map of valid UTF-8 is an image of itself. */
  lemma OwnImage(m: Store)
    requires ValidStore(m)
    ensures JsonImage(m, m)
  {
    forall k | k in m
      ensures Clean(k) == k && HasOrigin(m, m, k)
    {
      CleanIffValid(k);
      CleanIffValid(m[k]);
    }
  }

  /** A key that is a single stray byte comes back as another key. */
  lemma StrayByteExample() returns (m: Store, m': Store)
    ensures JsonImage(m, m') && m' != m
  {
    var k, k' := [Stray(255)], [Rune('\U{FFFD}')];
    m, m' := map[k := []], map[k' := []];
    assert Clean(k) == k' && Clean(m[k]) == [];
    assert HasOrigin(m, m', k');
    assert k[0] != k'[0] && k !in m';
  }

  // ---------------------------------------------------------------- reading the stream

  /** The loop of readCommits, one message at a time. */
  function Consume(kv: Store, events: seq<Received>): Reading
    decreases |events|
  {
    if events == [] then Reading(kv, 0, Waiting)
    else if Usable(events[0]) then More(Consume(Took(kv, events[0]), events[1..]))
    else Reading(kv, 1, if events[0] == Signal(NoSnapshot) then CaughtUp else Died)
  }

  /** A message after which reading goes on. */
  predicate Usable(e: Received) {
    Loads(e) || (e.Commit? && e.payload.Put?)
  }

  predicate Loads(e: Received) {
    e.Signal? && e.load.Loaded?
  }

  /** The map after one message: a put is written, a snapshot replaces the whole map. */
  function Took(kv: Store, e: Received): Store {
    match e
    case Commit(p) => Write(kv, p)
    case Signal(Loaded(data)) => data
    case Signal(_) => kv
  }

  function More(r: Reading): Reading {
    r.(used := r.used + 1)
  }

  /** The puts among some messages, on top of a base. */
  function Puts(base: Store, events: seq<Received>): Store {
    if events == [] then base
    else
      var e := events[|events| - 1];
      var before := Puts(base, events[..|events| - 1]);
      if e.Commit? then Write(before, e.payload) else before
  }

  /** One past the last message that loaded a snapshot; zero if none did. */
  function AfterLastLoad(events: seq<Received>): (n: nat)
    ensures n <= |events|
    ensures n > 0 ==> Loads(events[n - 1])
    ensures forall i :: n <= i < |events| ==> !Loads(events[i])
  {
    if events == [] then 0
    else if Loads(events[|events| - 1]) then |events|
    else AfterLastLoad(events[..|events| - 1])
  }

  /** The map that a prefix of the stream denotes: the puts since the last snapshot load, on that snapshot. */
  function Denoted(kv: Store, events: seq<Received>): Store {
    var n := AfterLastLoad(events);
    Puts(if n == 0 then kv else events[n - 1].load.data, events[n..])
  }

  lemma {:induction false} PutsFirst(base: Store, events: seq<Received>)
    requires events != []
    ensures Puts(base, events) ==
            Puts(if events[0].Commit? then Write(base, events[0].payload) else base, events[1..])
  {
    var e := events[|events| - 1];
    if |events| == 1 {
      assert events[1..] == [] && events[..0] == [];
    } else {
      PutsFirst(base, events[..|events| - 1]);
      assert events[1..][..|events| - 2] == events[..|events| - 1][1..];
    }
  }

  lemma {:induction false} AfterLastLoadFirst(events: seq<Received>)
    requires events != []
    ensures AfterLastLoad(events) ==
            if AfterLastLoad(events[1..]) > 0 then AfterLastLoad(events[1..]) + 1
            else if Loads(events[0]) then 1 else 0
  {
    var n, m := AfterLastLoad(events), AfterLastLoad(events[1..]);
    assert forall i :: 0 <= i < |events| - 1 ==> events[1..][i] == events[i + 1];
    assert m > 0 ==> Loads(events[m]);
    assert n > 1 ==> Loads(events[1..][n - 2]);
  }

  lemma DenotedFirst(kv: Store, events: seq<Received>)
    requires events != []
    ensures Denoted(kv, events) == Denoted(Took(kv, events[0]), events[1..])
  {
    AfterLastLoadFirst(events);
    var n, m := AfterLastLoad(events), AfterLastLoad(events[1..]);
    assert n > 0 ==> events[n..] == events[1..][n - 1..];
    if n == 0 {
      assert events[0..] == events && events[1..][0..] == events[1..];
      PutsFirst(kv, events);
    }
  }

  predicate IsPut(e: Received) {
    e.Commit? && e.payload.Put?
  }

  predicate IsLoad(e: Received) {
    e.Signal? && e.load.Loaded?
  }

  /** Reading stops exactly at the first message that is neither a put nor a nil with a snapshot. */
  lemma {:induction false} ConsumerStops(kv: Store, events: seq<Received>)
    ensures var r := Consume(kv, events);
            && r.used <= |events|
            && (forall i :: 0 <= i < r.used - 1 ==> IsPut(events[i]) || IsLoad(events[i]))
            && (r.end == Waiting <==> forall i :: 0 <= i < |events| ==> IsPut(events[i]) || IsLoad(events[i]))
            && (r.end == Waiting ==> r.used == |events|)
            && (r.end != Waiting ==> r.used > 0 && !IsPut(events[r.used - 1]) && !IsLoad(events[r.used - 1]))
            && (r.end == CaughtUp <==> r.used > 0 && events[r.used - 1] == Signal(NoSnapshot))
    decreases |events|
  {
    if events != [] && Usable(events[0]) {
      ConsumerStops(Took(kv, events[0]), events[1..]);
      assert forall i :: 0 < i < |events| ==> events[i] == events[1..][i - 1];
      var r := Consume(kv, events);
      assert r.used > 1 ==> events[r.used - 1] == events[1..][r.used - 2];
    }
  }

  /** For every stream the consumer's map is what the messages it used denote. */
  lemma {:induction false} ConsumerExact(kv: Store, events: seq<Received>)
    ensures Consume(kv, events).used <= |events|
    ensures Consume(kv, events).kv == Denoted(kv, events[..Consume(kv, events).used])
    decreases |events|
  {
    var r := Consume(kv, events);
    if events == [] {
      assert events[..0] == [];
    } else if Usable(events[0]) {
      ConsumerExact(Took(kv, events[0]), events[1..]);
      assert events[..r.used][1..] == events[1..][..r.used - 1];
      DenotedFirst(kv, events[..r.used]);
    } else {
      assert events[..1][1..] == [];
      DenotedFirst(kv, events[..1]);
    }
  }

  // ---------------------------------------------------------------- log and snapshot

  /** The commit messages of some entries. */
  function Commits(ents: seq<Entry>): seq<Received> {
    if ents == [] then []
    else
      Commits(ents[..|ents| - 1]) +
      if Carries(ents[|ents| - 1]) then [Commit(ents[|ents| - 1].body.payload)] else []
  }

  ghost predicate Decodable(ents: seq<Entry>) {
    forall e :: e in ents && Carries(e) ==> e.body.payload.Put?
  }

  ghost predicate ValidEntry(e: Entry) {
    e.body.Normal? && e.body.payload.Put? ==> Valid(e.body.payload.key) && Valid(e.body.payload.value)
  }

  lemma {:induction false} FoldValid(log: seq<Entry>)
    requires forall e :: e in log ==> ValidEntry(e)
    ensures ValidStore(Fold(log))
  {
    if log != [] {
      FoldValid(log[..|log| - 1]);
      assert ValidEntry(log[|log| - 1]);
    }
  }

  lemma PutsLast(base: Store, events: seq<Received>, e: Received)
    ensures Puts(base, events + [e]) == if e.Commit? then Write(Puts(base, events), e.payload) else Puts(base, events)
  {
    assert (events + [e])[..|events|] == events;
  }

  lemma CommitsLast(ents: seq<Entry>, e: Entry)
    ensures Commits(ents + [e]) == if Carries(e) then Commits(ents) + [Commit(e.body.payload)] else Commits(ents)
  {
    assert (ents + [e])[..|ents|] == ents;
  }

  lemma {:induction false} PutsOfCommits(log: seq<Entry>, s: nat)
    requires s <= |log|
    ensures Puts(Fold(log[..s]), Commits(log[s..])) == Fold(log)
  {
    if s == |log| {
      assert log[..s] == log && log[s..] == [];
    } else {
      var before, e := log[..|log| - 1], log[|log| - 1];
      PutsOfCommits(before, s);
      assert before[..s] == log[..s] && log[s..] == before[s..] + [e];
      CommitsLast(before[s..], e);
      if Carries(e) {
        PutsLast(Fold(log[..s]), Commits(before[s..]), Commit(e.body.payload));
      }
    }
  }

  /** One more message. */
  lemma DenotedLast(kv: Store, events: seq<Received>, e: Received)
    ensures Denoted(kv, events + [e]) == Took(Denoted(kv, events), e)
  {
    var all, n := events + [e], AfterLastLoad(events);
    assert all[..|events|] == events;
    if Loads(e) {
      assert all[|all|..] == [];
    } else {
      assert all[n..] == events[n..] + [e];
      PutsLast(if n == 0 then kv else events[n - 1].load.data, events[n..], e);
    }
  }

  lemma {:induction false} CommitsArePuts(ents: seq<Entry>)
    requires Decodable(ents)
    ensures forall e :: e in Commits(ents) ==> e.Commit? && e.payload.Put?
  {
    if ents != [] {
      CommitsArePuts(ents[..|ents| - 1]);
    }
  }

  /** Reading a run of good messages never stops early, so the map is what they denote. */
  lemma ReadsAll(kv: Store, events: seq<Received>)
    requires forall e :: e in events ==> Usable(e)
    ensures Consume(kv, events) == Reading(Denoted(kv, events), |events|, Waiting)
  {
    assert forall i :: 0 <= i < |events| ==> Usable(events[i]);
    ConsumerExact(kv, events);
    ConsumerStops(kv, events);
    assert events[..|events|] == events;
  }

  /** A snapshot taken at index s, followed by the entries after s, gives the fold of the whole log. */
  lemma SnapshotThenTail(kv: Store, log: seq<Entry>, s: nat, image: Store)
    requires s <= |log| && Decodable(log)
    requires forall e :: e in log ==> ValidEntry(e)
    requires JsonImage(Fold(log[..s]), image)
    ensures Consume(kv, [Signal(Loaded(image))] + Commits(log[s..])).kv == Fold(log)
  {
    var tail := Commits(log[s..]);
    var events := [Signal(Loaded(image))] + tail;
    FoldValid(log[..s]);
    SnapshotFaithful(Fold(log[..s]), image);
    CommitsArePuts(log[s..]);
    ReadsAll(kv, events);
    assert events[1..] == tail;
    DenotedFirst(kv, events);
    assert forall i :: 0 <= i < |tail| ==> tail[i] in tail;
    assert AfterLastLoad(tail) == 0 && tail[0..] == tail;
    PutsOfCommits(log, s);
  }

  /** The value that some entries leave under a key, if they write it at all. */
  datatype Written = Untouched | Value(v: Text)

  function LastWrite(ents: seq<Entry>, k: Text): Written {
    if ents == [] then Untouched
    else
      var e := ents[|ents| - 1];
      if e.body.Normal? && e.body.payload.Put? && e.body.payload.key == k then Value(e.body.payload.value)
      else LastWrite(ents[..|ents| - 1], k)
  }

  lemma {:induction false} OntoByLastWrite(base: Store, ents: seq<Entry>, k: Text)
    ensures match LastWrite(ents, k)
            case Value(v) => k in Onto(base, ents) && Onto(base, ents)[k] == v
            case Untouched => (k in Onto(base, ents) <==> k in base) && (k in base ==> Onto(base, ents)[k] == base[k])
  {
    if ents != [] {
      OntoByLastWrite(base, ents[..|ents| - 1], k);
    }
  }

  /** Leaving out the entries from s to l does not show at n: every key they write had that value before or is
      written again. */
  ghost predicate Redundant(log: seq<Entry>, s: nat, l: nat, n: nat)
    requires s <= l <= n <= |log|
  {
    forall k :: LastWrite(log[s..l], k).Value? && LastWrite(log[l..n], k) == Untouched ==>
      k in Fold(log[..s]) && Fold(log[..s])[k] == LastWrite(log[s..l], k).v
  }

  /** What a key holds with and without the entries from s to l. */
  lemma SameKeyIff(log: seq<Entry>, s: nat, l: nat, n: nat, k: Text)
    requires s <= l <= n <= |log|
    ensures var part, all := Onto(Fold(log[..s]), log[l..n]), Fold(log[..n]);
            ((k in part <==> k in all) && (k in part && k in all ==> part[k] == all[k])) <==>
            (LastWrite(log[s..l], k).Value? && LastWrite(log[l..n], k) == Untouched ==>
               k in Fold(log[..s]) && Fold(log[..s])[k] == LastWrite(log[s..l], k).v)
  {
    OntoByLastWrite(Fold(log[..s]), log[l..n], k);
    OntoByLastWrite(Fold(log[..s]), log[s..l], k);
    OntoByLastWrite(Fold(log[..l]), log[l..n], k);
    OntoFold(log, s, l);
    OntoFold(log, l, n);
  }

  /** A map that misses the entries from s to l is right exactly when they are redundant. */
  lemma RedundantIff(log: seq<Entry>, s: nat, l: nat, n: nat)
    requires s <= l <= n <= |log|
    ensures Onto(Fold(log[..s]), log[l..n]) == Fold(log[..n]) <==> Redundant(log, s, l, n)
  {
    var part, all := Onto(Fold(log[..s]), log[l..n]), Fold(log[..n]);
    forall k
      ensures ((k in part <==> k in all) && (k in part && k in all ==> part[k] == all[k])) <==>
              (LastWrite(log[s..l], k).Value? && LastWrite(log[l..n], k) == Untouched ==>
                 k in Fold(log[..s]) && Fold(log[..s])[k] == LastWrite(log[s..l], k).v)
    {
      SameKeyIff(log, s, l, n, k);
    }
    if Redundant(log, s, l, n) {
      assert part.Keys == all.Keys;
    }
  }

  /** Every key that the first s entries leave behind is written again up to n. */
  ghost predicate Rewritten(log: seq<Entry>, s: nat, n: nat)
    requires s <= n <= |log|
  {
    forall k :: k in Fold(log[..s]) ==> LastWrite(log[s..n], k).Value?
  }

  /** A map that starts from nothing behind s is right exactly when everything before has been written again. */
  lemma RewrittenIff(log: seq<Entry>, s: nat, n: nat)
    requires s <= n <= |log|
    ensures Onto(map[], log[s..n]) == Fold(log[..n]) <==> Rewritten(log, s, n)
  {
    var part, all := Onto(map[], log[s..n]), Fold(log[..n]);
    OntoFold(log, s, n);
    forall k
      ensures ((k in part <==> k in all) && (k in part && k in all ==> part[k] == all[k])) <==>
              (k in Fold(log[..s]) ==> LastWrite(log[s..n], k).Value?)
    {
      OntoByLastWrite(map[], log[s..n], k);
      OntoByLastWrite(Fold(log[..s]), log[s..n], k);
    }
    if Rewritten(log, s, n) {
      assert part.Keys == all.Keys;
    }
  }

  // ---------------------------------------------------------------- the store itself

  class Kv {
    var kv: Store

    constructor ()
      ensures kv == map[]
    {
      kv := map[];
    }

    method Lookup(key: Text) returns (v: Text, ok: bool)
      ensures ok <==> key in kv
      ensures ok ==> v == kv[key]
    {
      ok := key in kv;
      v := if ok then kv[key] else [];
    }

    /** What a later load of this snapshot will yield. */
    method GetSnapshot() returns (data: Store)
      ensures JsonImage(kv, data)
      ensures ValidStore(kv) ==> data == kv
    {
      data := map[];
      var keys := kv.Keys;
      ghost var done := {};
      while keys != {}
        invariant keys + done == kv.Keys && keys !! done
        invariant forall k :: k in done ==> Clean(k) in data
        invariant forall k' :: k' in data ==> HasOrigin(kv, data, k')
        decreases keys
      {
        var k :| k in keys;
        ghost var before := data;
        data := data[Clean(k) := Clean(kv[k])];
        forall k' | k' in data
          ensures HasOrigin(kv, data, k')
        {
          if k' != Clean(k) {
            assert HasOrigin(kv, before, k');
          }
        }
        keys, done := keys - {k}, done + {k};
      }
      SnapshotFaithful(kv, data);
    }

    method RecoverFromSnapshot(data: Store)
      modifies this
      ensures kv == data
    {
      kv := data;
    }

    /** Consumes messages until the channel runs dry, a nil comes without a snapshot, or the process dies. */
    method ReadCommits(events: seq<Received>) returns (used: nat, end: End)
      modifies this
      ensures Reading(kv, used, end) == Consume(old(kv), events)
      ensures used <= |events| && kv == Denoted(old(kv), events[..used])
    {
      used, end := 0, Waiting;
      while used < |events|
        invariant used <= |events| && end == Waiting
        invariant Consume(old(kv), events) == Offset(Consume(kv, events[used..]), used)
      {
        var e := events[used];
        assert events[used..][0] == e && events[used..][1..] == events[used + 1..];
        used := used + 1;
        match e {
          case Signal(load) =>
            match load {
              case NoSnapshot => end := CaughtUp;
              case LoadError => end := Died;
              case Loaded(data) => RecoverFromSnapshot(data);
            }
          case Commit(p) =>
            if p.Put? {
              kv := kv[p.key := p.value];
            } else {
              end := Died;
            }
        }
        if end != Waiting {
          break;
        }
      }
      ConsumerExact(old(kv), events);
    }
  }

  function Offset(r: Reading, n: nat): Reading {
    r.(used := r.used + n)
  }
}
