/** Splitting a string at a separator, as strings.Split does. */
module Texts {

  predicate Free(s: string, sep: char) {
    forall i :: 0 <= i < |s| ==> s[i] != sep
  }

  /** Puts a character in front of a text that is split already. */
  function Push(c: char, sep: char, parts: seq<string>): (r: seq<string>)
    requires parts != []
    ensures r != []
  {
    if c == sep then [""] + parts else [[c] + parts[0]] + parts[1..]
  }

  function Split(s: string, sep: char): (parts: seq<string>)
    ensures parts != []
  {
    if s == "" then [""] else Push(s[0], sep, Split(s[1..], sep))
  }

  lemma {:induction false} SplitFree(a: string, sep: char)
    requires Free(a, sep)
    ensures Split(a, sep) == [a]
  {
    if a != "" {
      SplitFree(a[1..], sep);
      assert a == [a[0]] + a[1..];
    }
  }

  lemma PushConcat(c: char, sep: char, x: seq<string>, y: seq<string>)
    requires x != []
    ensures Push(c, sep, x + y) == Push(c, sep, x) + y
  {
    assert (x + y)[1..] == x[1..] + y;
  }

  /** A separator always separates. */
  lemma {:induction false} SplitAt(a: string, sep: char, b: string)
    ensures Split(a + [sep] + b, sep) == Split(a, sep) + Split(b, sep)
  {
    var s := a + [sep] + b;
    if a == "" {
      assert s[1..] == b;
    } else {
      SplitAt(a[1..], sep, b);
      assert s[0] == a[0] && s[1..] == a[1..] + [sep] + b;
      PushConcat(a[0], sep, Split(a[1..], sep), Split(b, sep));
    }
  }

  lemma {:induction false} SplitSingle(a: string, sep: char)
    ensures |Split(a, sep)| == 1 <==> Free(a, sep)
  {
    if a != "" {
      SplitSingle(a[1..], sep);
      assert a == [a[0]] + a[1..];
    }
  }

  function Join(parts: seq<string>, sep: char): string
    requires parts != []
  {
    if |parts| == 1 then parts[0] else parts[0] + [sep] + Join(parts[1..], sep)
  }

  lemma JoinPush(c: char, sep: char, parts: seq<string>)
    requires parts != []
    ensures Join(Push(c, sep, parts), sep) == [c] + Join(parts, sep)
  {
    if c == sep {
      assert ([""] + parts)[1..] == parts;
    } else {
      assert ([[c] + parts[0]] + parts[1..])[1..] == parts[1..];
    }
  }

  lemma FreePush(c: char, sep: char, parts: seq<string>)
    requires parts != [] && forall p :: p in parts ==> Free(p, sep)
    ensures forall p :: p in Push(c, sep, parts) ==> Free(p, sep)
  {
    assert parts[0] in parts && forall p :: p in parts[1..] ==> p in parts;
  }

  /** The parts make up the text, and no part holds a separator. */
  lemma {:induction false} SplitJoin(s: string, sep: char)
    ensures Join(Split(s, sep), sep) == s
    ensures forall p :: p in Split(s, sep) ==> Free(p, sep)
  {
    if s != "" {
      SplitJoin(s[1..], sep);
      JoinPush(s[0], sep, Split(s[1..], sep));
      FreePush(s[0], sep, Split(s[1..], sep));
    }
  }
}
