/** The self-expiring file store: lifetimes of uploads, the journal and one pass of the cleaner
    (file_service.go, journal.go, cleaner.go). Times are in nanoseconds. */
module FileStore {
  import opened Options
  import opened Texts
  import opened Journal

  const SECOND: int := 1_000_000_000
  const HOUR: int := 3600 * SECOND
  const DEFAULT_TTL: int := 300 * SECOND
  const MAX_JOURNAL: int := 1024 * 1024 * 1024 * 1024

  /** How dates and durations are printed and read. */
  datatype Codec = Codec(
    printDate: int -> string, readDate: string -> Option<int>,
    printTtl: int -> string, readTtl: string -> Option<int>)

  /** A printed date has no fraction of a second. */
  function Seconds(t: int): int {
    t - t % SECOND
  }

  ghost predicate Faithful(c: Codec) {
    && (forall t :: c.readDate(c.printDate(t)) == Some(Seconds(t)))
    && (forall d :: c.readTtl(c.printTtl(d)) == Some(d))
    && (forall t :: Free(c.printDate(t), ',') && Free(c.printDate(t), '\n'))
    && (forall d :: Free(c.printTtl(d), ',') && Free(c.printTtl(d), '\n'))
  }

  /** The lifetime header of an upload. */
  datatype Header = Absent | Invalid | Duration(d: int)

  /** The lifetime an upload gets: what it asks for, or the default if it asks for nothing usable. */
  function TtlFor(h: Header): (ttl: int)
    ensures ttl <= HOUR
    ensures h.Duration? && h.d <= HOUR ==> ttl == h.d
    ensures !(h.Duration? && h.d <= HOUR) ==> ttl == DEFAULT_TTL
  {
    if h.Duration? && h.d <= HOUR then h.d else DEFAULT_TTL
  }

  /** The line for a file whose lifetime begins now. */
  function EntryFor(c: Codec, now: int, ttl: int, path: string): Entry {
    Entry(c.printDate(now + ttl), c.printTtl(ttl), path)
  }

  lemma EntryIsClean(c: Codec, now: int, ttl: int, path: string)
    requires Faithful(c) && Free(path, ',') && Free(path, '\n')
    ensures Clean(EntryFor(c, now, ttl, path))
  {
  }

  /** What the cleaner reads in the line of a file. */
  lemma EntryReadsBack(c: Codec, now: int, ttl: int, path: string)
    requires Faithful(c) && Free(path, ',') && Free(path, '\n')
    ensures var e := ParseLine(Line(EntryFor(c, now, ttl, path)));
            && e.Some? && e.value.path == path
            && c.readDate(e.value.date) == Some(Seconds(now + ttl)) && c.readTtl(e.value.ttl) == Some(ttl)
  {
    EntryIsClean(c, now, ttl, path);
    LineIff(EntryFor(c, now, ttl, path));
  }

  // ---------------------------------------------------------------- one pass of the cleaner

  datatype Verdict = Skip | Broken | Keep | Remove(path: string)

  /** What a line means for the files that are there. */
  function Judge(c: Codec, line: string, files: set<string>, now: int): Verdict {
    match ParseLine(line)
    case None => Skip
    case Some(e) =>
      if e.path !in files then Skip
      else if c.readDate(e.date).None? || c.readTtl(e.ttl).None? then Broken
      else if now > c.readDate(e.date).value then Remove(e.path)
      else Keep
  }

  datatype Passed = Passed(files: set<string>, ok: bool)

  /** The pass reads the clock at every line; `stuck` are files that cannot be removed. */
  function Pass(c: Codec, lines: seq<string>, files: set<string>, nows: seq<int>, stuck: set<string>): Passed
    requires |nows| == |lines|
    decreases |lines|
  {
    if lines == [] then Passed(files, true)
    else
      match Judge(c, lines[0], files, nows[0])
      case Broken => Passed(files, false)
      case Remove(p) =>
        if p in stuck then Passed(files, false) else Pass(c, lines[1..], files - {p}, nows[1..], stuck)
      case _ => Pass(c, lines[1..], files, nows[1..], stuck)
  }

  /** A line that says file p has expired by now. */
  ghost predicate Expires(c: Codec, line: string, p: string, now: int) {
    var e := ParseLine(line);
    && e.Some? && e.value.path == p
    && c.readDate(e.value.date).Some? && c.readTtl(e.value.ttl).Some? && c.readDate(e.value.date).value < now
  }

  /** The pass ends in an error at line i: its file is still there, no line before it says that it has expired, and
      the line cannot be read or the file has expired but cannot be removed. */
  ghost predicate Fails(
      c: Codec, lines: seq<string>, files: set<string>, nows: seq<int>, stuck: set<string>, i: nat)
    requires i < |lines| == |nows|
  {
    var e := ParseLine(lines[i]);
    && e.Some? && e.value.path in files
    && (forall j :: 0 <= j < i ==> !Expires(c, lines[j], e.value.path, nows[j]))
    && (c.readDate(e.value.date).None? || c.readTtl(e.value.ttl).None?
        || (c.readDate(e.value.date).value < nows[i] && e.value.path in stuck))
  }

  /** Line n is the first at which the pass ends in an error; the number of lines if there is none. */
  ghost predicate FirstFailure(
      c: Codec, lines: seq<string>, files: set<string>, nows: seq<int>, stuck: set<string>, n: nat)
    requires |lines| == |nows|
  {
    && n <= |lines| && (n < |lines| ==> Fails(c, lines, files, nows, stuck, n))
    && forall i :: 0 <= i < n ==> !Fails(c, lines, files, nows, stuck, i)
  }

  /** A line that is passed over or removes its file shifts the failures by one. */
  lemma FailsLater(
      c: Codec, lines: seq<string>, files: set<string>, files': set<string>, nows: seq<int>, stuck: set<string>, i: nat)
    requires 0 < i < |lines| == |nows|
    requires forall p :: p in files' <==> p in files && !Expires(c, lines[0], p, nows[0])
    ensures Fails(c, lines, files, nows, stuck, i) <==> Fails(c, lines[1..], files', nows[1..], stuck, i - 1)
  {
    var e := ParseLine(lines[i]);
    if e.Some? {
      var p := e.value.path;
      assert forall j :: 0 <= j < i - 1 ==> lines[1..][j] == lines[j + 1] && nows[1..][j] == nows[j + 1];
      assert (forall j :: 0 <= j < i ==> !Expires(c, lines[j], p, nows[j])) <==>
             !Expires(c, lines[0], p, nows[0]) &&
             forall j :: 0 <= j < i - 1 ==> !Expires(c, lines[1..][j], p, nows[1..][j]);
    }
  }

  /** A file goes exactly if a line before the first failure says that it has expired, and the pass succeeds exactly if
      there is no failure. */
  lemma {:induction false} PassExact(
      c: Codec, lines: seq<string>, files: set<string>, nows: seq<int>, stuck: set<string>, p: string) returns (n: nat)
    requires |nows| == |lines|
    ensures FirstFailure(c, lines, files, nows, stuck, n)
    ensures var r := Pass(c, lines, files, nows, stuck);
            && (r.ok <==> n == |lines|)
            && (p in r.files <==> p in files && forall i :: 0 <= i < n ==> !Expires(c, lines[i], p, nows[i]))
    decreases |lines|
  {
    n := 0;
    if lines != [] && !Fails(c, lines, files, nows, stuck, 0) {
      var v := Judge(c, lines[0], files, nows[0]);
      var files' := if v.Remove? then files - {v.path} else files;
      var m := PassExact(c, lines[1..], files', nows[1..], stuck, p);
      n := m + 1;
      forall i | 0 < i < |lines|
        ensures Fails(c, lines, files, nows, stuck, i) <==> Fails(c, lines[1..], files', nows[1..], stuck, i - 1)
      {
        FailsLater(c, lines, files, files', nows, stuck, i);
      }
      assert forall i :: 0 < i < |lines| ==> lines[1..][i - 1] == lines[i] && nows[1..][i - 1] == nows[i];
      assert (forall i :: 0 <= i < n ==> !Expires(c, lines[i], p, nows[i])) <==>
             !Expires(c, lines[0], p, nows[0]) &&
             forall i :: 0 <= i < m ==> !Expires(c, lines[1..][i], p, nows[1..][i]);
    }
  }

  // ---------------------------------------------------------------- the store

  class Store {
    const codec: Codec
    var files: set<string>
    var journal: string
    var fileTTL: int

    constructor (codec: Codec)
      ensures this.codec == codec && files == {} && journal == "" && fileTTL == 0
    {
      this.codec := codec;
      files, journal, fileTTL := {}, "", 0;
    }

    /** Exclusive creation: an existing file is never touched. */
    method CreateFile(path: string) returns (ok: bool)
      modifies this`files
      ensures ok <==> path !in old(files)
      ensures files == old(files) + {path}
    {
      if path in files {
        return false;
      }
      files := files + {path};
      return true;
    }

    /** The end of an upload: the shared field is set, read back, and a line is appended to the journal. */
    method Commit(header: Header, now: int, path: string, ghost entries: seq<Entry>)
      requires journal == Text(entries)
      modifies this`journal, this`fileTTL
      ensures fileTTL == TtlFor(header) <= HOUR
      ensures journal == Text(entries + [EntryFor(codec, now, fileTTL, path)])
    {
      if header.Duration? && header.d <= HOUR {
        fileTTL := header.d;
      } else {
        fileTTL := DEFAULT_TTL;
      }
      var e := EntryFor(codec, now, fileTTL, path);
      TextGrows(entries, e);
      journal := journal + Line(e) + "\n";
    }

    /** One pass of the cleaner; after an error-free pass an oversized journal is emptied. */
    method DeleteFunc(nows: seq<int>, stuck: set<string>) returns (ok: bool)
      requires |nows| == |Split(journal, '\n')|
      modifies this`files, this`journal
      ensures var r := Pass(codec, Split(old(journal), '\n'), old(files), nows, stuck);
              files == r.files && ok == r.ok
      ensures journal == if ok && |old(journal)| > MAX_JOURNAL then "" else old(journal)
    {
      var lines := Split(journal, '\n');
      var i := 0;
      while i < |lines|
        invariant i <= |lines| && journal == old(journal)
        invariant Pass(codec, lines, old(files), nows, stuck) == Pass(codec, lines[i..], files, nows[i..], stuck)
      {
        assert lines[i..][0] == lines[i] && lines[i..][1..] == lines[i + 1..];
        assert nows[i..][0] == nows[i] && nows[i..][1..] == nows[i + 1..];
        var fields := Split(lines[i], ',');
        if |fields| == 3 && fields[2] in files {
          var date, ttl := codec.readDate(fields[0]), codec.readTtl(fields[1]);
          if date.None? || ttl.None? {
            return false;
          }
          if nows[i] > date.value {
            if fields[2] in stuck {
              return false;
            }
            files := files - {fields[2]};
          }
        }
        i := i + 1;
      }
      if |journal| > MAX_JOURNAL {
        journal := "";
      }
      return true;
    }
  }

  /** An error-free pass over a well-formed journal removes exactly the files that have an expired entry. */
  lemma PassOverJournal(c: Codec, es: seq<Entry>, files: set<string>, now: int, stuck: set<string>, p: string)
    requires Faithful(c) && (forall e :: e in es ==> Clean(e))
    requires forall e :: e in es ==> c.readDate(e.date).Some? && c.readTtl(e.ttl).Some?
    ensures var lines := Split(Text(es), '\n');
            var r := Pass(c, lines, files, seq(|lines|, _ => now), stuck);
            r.ok ==>
              (p in r.files <==> p in files && !exists e :: e in es && e.path == p && c.readDate(e.date).value < now)
  {
    var lines := Split(Text(es), '\n');
    var nows := seq(|lines|, _ => now);
    var n := PassExact(c, lines, files, nows, stuck, p);
    RoundTrip(es);
    if p in files && p !in Pass(c, lines, files, nows, stuck).files {
      var i :| 0 <= i < n && Expires(c, lines[i], p, nows[i]);
      assert ParseLine(lines[i]).Some?;
      ParsedFrom(lines, i);
    }
    forall e | e in es && e.path == p && c.readDate(e.date).value < now
      ensures exists i :: 0 <= i < |lines| && Expires(c, lines[i], p, nows[i])
    {
      var i := ParsedTo(lines, e);
      assert Expires(c, lines[i], p, nows[i]);
    }
  }

  lemma {:induction false} ParsedFrom(lines: seq<string>, i: nat)
    requires i < |lines| && ParseLine(lines[i]).Some?
    ensures ParseLine(lines[i]).value in ParseLines(lines)
  {
    if i > 0 {
      ParsedFrom(lines[1..], i - 1);
    }
  }

  lemma {:induction false} ParsedTo(lines: seq<string>, e: Entry) returns (i: nat)
    requires e in ParseLines(lines)
    ensures i < |lines| && ParseLine(lines[i]) == Some(e)
  {
    if ParseLine(lines[0]) == Some(e) {
      i := 0;
    } else {
      i := ParsedTo(lines[1..], e);
      i := i + 1;
    }
  }
}
