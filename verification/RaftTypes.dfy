/** The values that flow through the raft example: log entries, commit messages, key-value maps. */
module RaftTypes {
  import opened Words

  /** One code point of a Go string, or a byte that is not part of valid UTF-8. */
  datatype Symbol = Rune(c: char) | Stray(b: nat)

  type Text = seq<Symbol>

  type Store = map<Text, Text>

  /** What the bytes of a normal entry gob-decode to. `Garbled` stands for bytes that do not decode. */
  datatype Payload = Empty | Put(key: Text, value: Text) | Garbled

  datatype Change = AddNode | RemoveNode | OtherChange

  datatype Body = Normal(payload: Payload) | Conf(change: Change, node: u64)

  datatype Entry = Entry(index: u64, body: Body)

  /** What travels over commitC: a string, or nil. */
  datatype Message = Data(payload: Payload) | Nil

  /** The committed log: entry number i sits at position i - 1 and no index reaches the 64-bit maximum. */
  ghost predicate IsLog(log: seq<Entry>) {
    && |log| < MAX
    && forall i :: 0 <= i < |log| ==> log[i].index == i + 1
  }

  predicate Carries(e: Entry) {
    e.body.Normal? && e.body.payload != Empty
  }

  /** One put, as the consumer applies it to its map. */
  function Write(store: Store, p: Payload): Store {
    if p.Put? then store[p.key := p.value] else store
  }

  /** The key-value map that a whole log denotes. */
  function Fold(log: seq<Entry>): Store {
    if log == [] then map[]
    else
      var before := Fold(log[..|log| - 1]);
      var e := log[|log| - 1];
      if e.body.Normal? then Write(before, e.body.payload) else before
  }

  /** Appending the next log entry extends the fold by that entry alone. */
  lemma FoldNext(log: seq<Entry>, n: nat)
    requires n < |log|
    ensures Fold(log[..n + 1]) ==
            if log[n].body.Normal? then Write(Fold(log[..n]), log[n].body.payload) else Fold(log[..n])
  {
    assert log[..n + 1][..n] == log[..n];
  }

  /** The map that some entries make of a base. */
  function Onto(base: Store, ents: seq<Entry>): Store {
    if ents == [] then base
    else
      var before := Onto(base, ents[..|ents| - 1]);
      var e := ents[|ents| - 1];
      if e.body.Normal? then Write(before, e.body.payload) else before
  }

  lemma OntoNext(base: Store, log: seq<Entry>, s: nat, n: nat)
    requires s <= n < |log|
    ensures Onto(base, log[s..n + 1]) ==
            if log[n].body.Normal? then Write(Onto(base, log[s..n]), log[n].body.payload) else Onto(base, log[s..n])
  {
    assert log[s..n + 1][..n - s] == log[s..n];
  }

  lemma {:induction false} OntoFold(log: seq<Entry>, s: nat, n: nat)
    requires s <= n <= |log|
    ensures Onto(Fold(log[..s]), log[s..n]) == Fold(log[..n])
  {
    if s < n {
      OntoFold(log, s, n - 1);
      OntoNext(Fold(log[..s]), log, s, n - 1);
      FoldNext(log, n - 1);
    }
  }
}
