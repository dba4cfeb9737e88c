/** Concurrent uploads that share one lifetime field, interleaved with the cleaner line by line. */
module VanishRun {
  import opened Texts
  import opened Journal
  import opened FileStore

  /** An upload after hashFile, after SetFileTTL, and after GetFileTTL. */
  datatype Upload = Created(path: string) | HasSet(path: string) | HasRead(path: string, ttl: int)

  /** A line that went into the journal: for which file, when, with what lifetime. */
  datatype Commit = Commit(path: string, now: int, ttl: int)

  /** The cleaner rests, or works on the lines it has read; `since` is when it read them and `upTo` how many
      commits there had been by then. */
  datatype Cleaner = Resting | Working(lines: seq<Entry>, done: nat, since: int, base: nat, upTo: nat)

  datatype Removal = Removal(path: string, now: int)

  /** `used` are all ids ever created, `commits` and `removals` are histories, and the journal holds the lines
      of the commits from number `base` on: those before were lost when it was emptied. */
  datatype State = State(
    clock: int, files: set<string>, used: set<string>, fileTTL: int, uploads: map<nat, Upload>,
    journal: seq<Entry>, base: nat, commits: seq<Commit>, cleaner: Cleaner, removals: seq<Removal>)

  datatype Step =
    | Create(u: nat, path: string)
    | SetTtl(u: nat, header: Header)
    | ReadTtl(u: nat)
    | CommitEntry(u: nat, now: int)
    | Abandon(u: nat)
    | ReadJournal(now: int)
    | NextLine(now: int, removable: bool)
    | EndPass

  const Start := State(0, {}, {}, 0, map[], [], 0, [], Resting, [])

  function Of(c: Codec, m: Commit): Entry {
    EntryFor(c, m.now, m.ttl, m.path)
  }

  function Lines(c: Codec, commits: seq<Commit>): seq<Entry> {
    seq(|commits|, i requires 0 <= i < |commits| => Of(c, commits[i]))
  }

  /** File ids do not repeat and the clock does not run backwards. */
  predicate Enabled(s: State, a: Step) {
    match a
    case Create(u, path) => u !in s.uploads && path !in s.used && Free(path, ',') && Free(path, '\n')
    case SetTtl(u, _) => u in s.uploads && s.uploads[u].Created?
    case ReadTtl(u) => u in s.uploads && s.uploads[u].HasSet?
    case CommitEntry(u, now) => u in s.uploads && s.uploads[u].HasRead? && now >= s.clock
    case Abandon(u) => u in s.uploads
    case ReadJournal(now) => s.cleaner.Resting? && now >= s.clock
    case NextLine(now, _) => s.cleaner.Working? && s.cleaner.done < |s.cleaner.lines| && now >= s.clock
    case EndPass => s.cleaner.Working? && s.cleaner.done == |s.cleaner.lines|
  }

  function Do(c: Codec, s: State, a: Step): State
    requires Enabled(s, a)
  {
    match a
    case Create(u, path) =>
      s.(files := s.files + {path}, used := s.used + {path}, uploads := s.uploads[u := Created(path)])
    case SetTtl(u, header) => s.(fileTTL := TtlFor(header), uploads := s.uploads[u := HasSet(s.uploads[u].path)])
    case ReadTtl(u) => s.(uploads := s.uploads[u := HasRead(s.uploads[u].path, s.fileTTL)])
    case CommitEntry(u, now) =>
      var m := Commit(s.uploads[u].path, now, s.uploads[u].ttl);
      s.(clock := now, journal := s.journal + [Of(c, m)], commits := s.commits + [m], uploads := s.uploads - {u})
    case Abandon(u) => s.(uploads := s.uploads - {u})
    case ReadJournal(now) =>
      s.(clock := now, cleaner := Working(Parse(Text(s.journal)), 0, now, s.base, |s.commits|))
    case NextLine(now, removable) =>
      var w := s.cleaner;
      var s' := s.(clock := now);
      match Judge(c, Line(w.lines[w.done]), s.files, now) {
        case Broken => s'.(cleaner := Resting)
        case Remove(p) =>
          if !removable then s'.(cleaner := Resting)
          else s'.(files := s.files - {p}, removals := s.removals + [Removal(p, now)],
                   cleaner := w.(done := w.done + 1))
        case _ => s'.(cleaner := w.(done := w.done + 1))
      }
    case EndPass =>
      if |Text(s.journal)| > MAX_JOURNAL then s.(cleaner := Resting, journal := [], base := |s.commits|)
      else s.(cleaner := Resting)
  }

  // ---------------------------------------------------------------- invariants

  ghost predicate CleanPath(p: string) {
    Free(p, ',') && Free(p, '\n')
  }

  /** Every lifetime in play is at most an hour. */
  ghost predicate TtlInv(s: State) {
    && s.fileTTL <= HOUR
    && (forall u :: u in s.uploads && s.uploads[u].HasRead? ==> s.uploads[u].ttl <= HOUR)
    && (forall i :: 0 <= i < |s.commits| ==> s.commits[i].ttl <= HOUR)
  }

  /** An id belongs to at most one upload, and to at most one commit. */
  ghost predicate IdInv(s: State) {
    && (forall p :: p in s.files ==> p in s.used)
    && (forall p :: p in s.used ==> CleanPath(p))
    && (forall u :: u in s.uploads ==> s.uploads[u].path in s.used)
    && (forall i :: 0 <= i < |s.commits| ==> s.commits[i].path in s.used)
    && (forall u, v :: u in s.uploads && v in s.uploads && s.uploads[u].path == s.uploads[v].path ==> u == v)
    && (forall u, i :: u in s.uploads && 0 <= i < |s.commits| ==> s.uploads[u].path != s.commits[i].path)
    && (forall i, j :: 0 <= i < j < |s.commits| ==> s.commits[i].path != s.commits[j].path)
  }

  ghost predicate JournalInv(c: Codec, s: State) {
    && s.base <= |s.commits| && s.journal == Lines(c, s.commits[s.base..])
    && (s.cleaner.Working? ==>
          && s.cleaner.base <= s.cleaner.upTo <= |s.commits| && s.cleaner.done <= |s.cleaner.lines|
          && s.cleaner.lines == Lines(c, s.commits[s.cleaner.base..s.cleaner.upTo])
          && s.cleaner.since <= s.clock)
  }

  /** Nothing was removed at or before the end of its lifetime less one second. */
  ghost predicate InTime(s: State, r: Removal) {
    exists i :: 0 <= i < |s.commits| && s.commits[i].path == r.path
                && r.now > s.commits[i].now + s.commits[i].ttl - SECOND
  }

  /** A commit whose printed expiry lies before a point in time. */
  predicate Over(m: Commit, t: int) {
    t > Seconds(m.now + m.ttl)
  }

  ghost predicate RemovalInv(s: State) {
    && (forall k :: 0 <= k < |s.removals| ==> InTime(s, s.removals[k]))
    && (s.cleaner.Working? && s.cleaner.base + s.cleaner.done <= |s.commits| ==>
          forall k :: s.cleaner.base <= k < s.cleaner.base + s.cleaner.done && Over(s.commits[k], s.cleaner.since) ==>
            s.commits[k].path !in s.files)
  }

  ghost predicate Inv(c: Codec, s: State) {
    TtlInv(s) && IdInv(s) && JournalInv(c, s) && RemovalInv(s)
  }

  lemma MoreCommits(s: State, s': State)
    requires s.commits <= s'.commits && s'.removals == s.removals
    requires forall k :: 0 <= k < |s.removals| ==> InTime(s, s.removals[k])
    ensures forall k :: 0 <= k < |s'.removals| ==> InTime(s', s'.removals[k])
  {
    forall k | 0 <= k < |s'.removals|
      ensures InTime(s', s'.removals[k])
    {
      var r := s.removals[k];
      var i :| 0 <= i < |s.commits| && s.commits[i].path == r.path
               && r.now > s.commits[i].now + s.commits[i].ttl - SECOND;
      assert s'.commits[i] == s.commits[i];
    }
  }

  lemma UploadKeeps(c: Codec, s: State, a: Step)
    requires Inv(c, s) && Enabled(s, a) && (a.Create? || a.SetTtl? || a.ReadTtl? || a.Abandon?)
    ensures Inv(c, Do(c, s, a))
  {
    MoreCommits(s, Do(c, s, a));
  }

  lemma CommitKeeps(c: Codec, s: State, u: nat, now: int)
    requires Inv(c, s) && Enabled(s, CommitEntry(u, now))
    ensures Inv(c, Do(c, s, CommitEntry(u, now)))
  {
    var s' := Do(c, s, CommitEntry(u, now));
    var m := s'.commits[|s.commits|];
    MoreCommits(s, s');
    assert s'.commits[s.base..] == s.commits[s.base..] + [m];
    if s.cleaner.Working? {
      var w := s.cleaner;
      assert s'.commits[w.base..w.upTo] == s.commits[w.base..w.upTo];
    }
  }

  lemma JournalIsClean(c: Codec, s: State)
    requires Faithful(c) && IdInv(s) && JournalInv(c, s)
    ensures Parse(Text(s.journal)) == s.journal
  {
    forall e | e in s.journal
      ensures Clean(e)
    {
      var i :| 0 <= i < |s.journal| && s.journal[i] == e;
      var m := s.commits[s.base + i];
      assert e == Of(c, m);
      EntryIsClean(c, m.now, m.ttl, m.path);
    }
    RoundTrip(s.journal);
  }

  lemma ReadKeeps(c: Codec, s: State, now: int)
    requires Faithful(c) && Inv(c, s) && Enabled(s, ReadJournal(now))
    ensures Inv(c, Do(c, s, ReadJournal(now)))
  {
    assert s.commits[s.base..|s.commits|] == s.commits[s.base..];
    JournalIsClean(c, s);
    MoreCommits(s, Do(c, s, ReadJournal(now)));
  }

  /** What the cleaner makes of the line of a commit. */
  lemma JudgeCommit(c: Codec, m: Commit, files: set<string>, now: int)
    requires Faithful(c) && CleanPath(m.path)
    ensures Judge(c, Line(Of(c, m)), files, now) ==
            if m.path !in files then Skip else if Over(m, now) then Remove(m.path) else Keep
  {
    EntryReadsBack(c, m.now, m.ttl, m.path);
  }

  /** What a line does to the state. */
  lemma LineEffect(c: Codec, s: State, now: int, removable: bool) returns (m: Commit)
    requires Faithful(c) && IdInv(s) && JournalInv(c, s) && Enabled(s, NextLine(now, removable))
    ensures m == s.commits[s.cleaner.base + s.cleaner.done]
    ensures var s' := Do(c, s, NextLine(now, removable));
            var next := s.cleaner.(done := s.cleaner.done + 1);
            s' == if m.path in s.files && Over(m, now) then
                    if removable then s.(clock := now, files := s.files - {m.path},
                                         removals := s.removals + [Removal(m.path, now)], cleaner := next)
                    else s.(clock := now, cleaner := Resting)
                  else s.(clock := now, cleaner := next)
  {
    var w := s.cleaner;
    m := s.commits[w.base + w.done];
    assert w.lines[w.done] == Of(c, s.commits[w.base..w.upTo][w.done]) == Of(c, m);
    JudgeCommit(c, m, s.files, now);
  }

  /** The cleaner is done with a line whose file, if it is over, is not there any more. */
  lemma LineDone(c: Codec, s: State, now: int, m: Commit)
    requires Inv(c, s) && s.cleaner.Working? && s.cleaner.done < |s.cleaner.lines| && now >= s.clock
    requires s.cleaner.base + s.cleaner.done < |s.commits| && m == s.commits[s.cleaner.base + s.cleaner.done]
    requires m.path in s.files ==> !Over(m, now)
    ensures Inv(c, s.(clock := now, cleaner := s.cleaner.(done := s.cleaner.done + 1)))
  {
    MoreCommits(s, s.(clock := now, cleaner := s.cleaner.(done := s.cleaner.done + 1)));
  }

  lemma LineStuck(c: Codec, s: State, now: int)
    requires Inv(c, s) && now >= s.clock
    ensures Inv(c, s.(clock := now, cleaner := Resting))
  {
    MoreCommits(s, s.(clock := now, cleaner := Resting));
  }

  /** A file that is over is removed. */
  lemma FileRemoved(c: Codec, s: State, now: int, k: nat)
    requires Inv(c, s) && k < |s.commits| && Over(s.commits[k], now)
    ensures var p := s.commits[k].path;
            Inv(c, s.(files := s.files - {p}, removals := s.removals + [Removal(p, now)]))
  {
    var p := s.commits[k].path;
    var s' := s.(files := s.files - {p}, removals := s.removals + [Removal(p, now)]);
    forall j | 0 <= j < |s'.removals|
      ensures InTime(s', s'.removals[j])
    {
      if j < |s.removals| {
        MoreCommits(s, s'.(removals := s.removals));
        assert InTime(s'.(removals := s.removals), s.removals[j]);
      } else {
        assert s'.commits[k].path == s'.removals[j].path;
      }
    }
  }

  lemma LineKeeps(c: Codec, s: State, now: int, removable: bool)
    requires Faithful(c) && Inv(c, s) && Enabled(s, NextLine(now, removable))
    ensures Inv(c, Do(c, s, NextLine(now, removable)))
  {
    var m := LineEffect(c, s, now, removable);
    var k := s.cleaner.base + s.cleaner.done;
    if m.path in s.files && Over(m, now) {
      if removable {
        FileRemoved(c, s, now, k);
        LineDone(c, s.(files := s.files - {m.path}, removals := s.removals + [Removal(m.path, now)]), now, m);
      } else {
        LineStuck(c, s, now);
      }
    } else {
      LineDone(c, s, now, m);
    }
  }

  lemma EndKeeps(c: Codec, s: State)
    requires Inv(c, s) && Enabled(s, EndPass)
    ensures Inv(c, Do(c, s, EndPass))
  {
    MoreCommits(s, Do(c, s, EndPass));
    assert s.commits[|s.commits|..] == [];
  }

  lemma StepKeeps(c: Codec, s: State, a: Step)
    requires Faithful(c) && Inv(c, s) && Enabled(s, a)
    ensures Inv(c, Do(c, s, a))
  {
    match a {
      case CommitEntry(u, now) => CommitKeeps(c, s, u, now);
      case ReadJournal(now) => ReadKeeps(c, s, now);
      case NextLine(now, removable) => LineKeeps(c, s, now, removable);
      case EndPass => EndKeeps(c, s);
      case _ => UploadKeeps(c, s, a);
    }
  }

  ghost predicate Run(c: Codec, run: seq<State>, acts: seq<Step>) {
    && |run| == |acts| + 1 && run[0] == Start
    && forall i :: 0 <= i < |acts| ==> Enabled(run[i], acts[i]) && run[i + 1] == Do(c, run[i], acts[i])
  }

  lemma {:induction false} RunKeeps(c: Codec, run: seq<State>, acts: seq<Step>, i: nat)
    requires Faithful(c) && Run(c, run, acts) && i < |run|
    ensures Inv(c, run[i])
  {
    if i == 0 {
      assert Start.commits[0..] == [];
    } else {
      RunKeeps(c, run, acts, i - 1);
      StepKeeps(c, run[i - 1], acts[i - 1]);
    }
  }

  // ---------------------------------------------------------------- the theorems

  /** Every journaled lifetime is at most an hour, whichever upload set the shared field last. */
  lemma JournaledTtlBounded(c: Codec, run: seq<State>, acts: seq<Step>, i: nat, k: nat)
    requires Faithful(c) && Run(c, run, acts) && i < |run| && k < |run[i].commits|
    ensures run[i].commits[k].ttl <= HOUR
  {
    RunKeeps(c, run, acts, i);
  }

  lemma {:induction false} FieldUnchanged(c: Codec, run: seq<State>, acts: seq<Step>, i: nat, j: nat)
    requires Run(c, run, acts) && i < j <= |acts| && (forall k :: i < k < j ==> !acts[k].SetTtl?)
    ensures run[j].fileTTL == run[i + 1].fileTTL
  {
    if j > i + 1 {
      FieldUnchanged(c, run, acts, i, j - 1);
      assert run[j] == Do(c, run[j - 1], acts[j - 1]);
    }
  }

  /** An upload journals the lifetime that was set last before it reads the shared field, by whichever upload. It gets
      the lifetime of its own header exactly when that last header yields the same one. */
  lemma LastSetWins(c: Codec, run: seq<State>, acts: seq<Step>, own: nat, last: nat, j: nat, u: nat)
    requires Run(c, run, acts) && own <= last < j < |acts|
    requires acts[own].SetTtl? && acts[own].u == u && acts[last].SetTtl? && acts[j] == ReadTtl(u)
    requires forall k :: last < k < j ==> !acts[k].SetTtl?
    ensures u in run[j + 1].uploads && run[j + 1].uploads[u].HasRead?
    ensures run[j + 1].uploads[u].ttl == TtlFor(acts[last].header)
    ensures run[j + 1].uploads[u].ttl == TtlFor(acts[own].header) <==>
            TtlFor(acts[own].header) == TtlFor(acts[last].header)
  {
    FieldUnchanged(c, run, acts, last, j);
    assert run[last + 1] == Do(c, run[last], acts[last]);
    assert run[j + 1] == Do(c, run[j], acts[j]);
  }

  /** Upload u goes on from step b to step x: it is neither committed nor abandoned. */
  ghost predicate GoesOn(acts: seq<Step>, u: nat, b: nat, x: nat) {
    b <= x <= |acts| && forall k :: b <= k < x ==> acts[k] != Abandon(u) && !(acts[k].CommitEntry? && acts[k].u == u)
  }

  /** An upload keeps its path, and a lifetime once it has read one. */
  lemma {:induction false} UploadStays(c: Codec, run: seq<State>, acts: seq<Step>, u: nat, b: nat, x: nat)
    requires Run(c, run, acts) && GoesOn(acts, u, b, x) && u in run[b].uploads
    ensures u in run[x].uploads && run[x].uploads[u].path == run[b].uploads[u].path
    ensures run[b].uploads[u].HasRead? ==> run[x].uploads[u] == run[b].uploads[u]
  {
    if b < x {
      UploadStays(c, run, acts, u, b, x - 1);
      assert run[x] == Do(c, run[x - 1], acts[x - 1]);
    }
  }

  /** The line that an upload leaves in the journal: its own path, and the lifetime that was set last before it read the
      shared field, counted from its commit. */
  lemma JournalsLastSet(c: Codec, run: seq<State>, acts: seq<Step>, b: nat, last: nat, j: nat, x: nat, u: nat)
    requires Run(c, run, acts) && b < j < x < |acts| && last < j && GoesOn(acts, u, b + 1, x)
    requires acts[b].Create? && acts[b].u == u && acts[last].SetTtl? && acts[j] == ReadTtl(u)
    requires acts[x].CommitEntry? && acts[x].u == u
    requires forall k :: last < k < j ==> !acts[k].SetTtl?
    ensures var path, now, ttl := acts[b].path, acts[x].now, TtlFor(acts[last].header);
            && run[x + 1].journal == run[x].journal + [EntryFor(c, now, ttl, path)]
            && run[x + 1].commits == run[x].commits + [Commit(path, now, ttl)]
  {
    assert run[b + 1] == Do(c, run[b], acts[b]);
    UploadStays(c, run, acts, u, b + 1, j);
    FieldUnchanged(c, run, acts, last, j);
    assert run[last + 1] == Do(c, run[last], acts[last]);
    assert run[j + 1] == Do(c, run[j], acts[j]);
    UploadStays(c, run, acts, u, j + 1, x);
    assert run[x + 1] == Do(c, run[x], acts[x]);
  }

  /** No file is removed at or before its commit time plus its journaled lifetime less one second. */
  lemma NeverTooEarly(c: Codec, run: seq<State>, acts: seq<Step>, i: nat, r: nat, k: nat)
    requires Faithful(c) && Run(c, run, acts) && i < |run| && r < |run[i].removals| && k < |run[i].commits|
    requires run[i].commits[k].path == run[i].removals[r].path
    ensures run[i].removals[r].now > run[i].commits[k].now + run[i].commits[k].ttl - SECOND
  {
    RunKeeps(c, run, acts, i);
    assert InTime(run[i], run[i].removals[r]);
  }

  /** The pass empties the journal, which has grown too long. */
  predicate Empties(s: State, a: Step) {
    a == EndPass && |Text(s.journal)| > MAX_JOURNAL
  }

  lemma CommitsGrow(c: Codec, run: seq<State>, acts: seq<Step>, k: nat)
    requires Run(c, run, acts) && k < |acts|
    ensures run[k].commits <= run[k + 1].commits
    ensures run[k + 1].base == run[k].base || Empties(run[k], acts[k])
  {
    assert run[k + 1] == Do(c, run[k], acts[k]);
  }

  /** Commits are only ever added, and only emptying the journal loses lines. */
  lemma {:induction false} LinesKept(c: Codec, run: seq<State>, acts: seq<Step>, i: nat, j: nat)
    requires Run(c, run, acts) && i <= j <= |acts| && forall k :: i <= k < j ==> !Empties(run[k], acts[k])
    ensures run[i].commits <= run[j].commits && run[j].base == run[i].base
  {
    if i < j {
      LinesKept(c, run, acts, i, j - 1);
      CommitsGrow(c, run, acts, j - 1);
    }
  }

  /** Steps y to z belong to one pass of the cleaner: it reads the journal at y and has not ended before z. */
  ghost predicate OnePass(run: seq<State>, acts: seq<Step>, y: nat, z: nat)
    requires |run| == |acts| + 1
  {
    && y < z < |acts| && acts[y].ReadJournal? && run[z].cleaner.Working?
    && forall k :: y < k < z ==> !acts[k].ReadJournal? && acts[k] != EndPass
  }

  lemma {:induction false} SamePass(c: Codec, run: seq<State>, acts: seq<Step>, y: nat, z: nat)
    requires Run(c, run, acts) && OnePass(run, acts, y, z)
    ensures var w := run[z].cleaner;
            w.base == run[y].base && w.upTo == |run[y].commits| && w.since == acts[y].now
    decreases z
  {
    assert run[z] == Do(c, run[z - 1], acts[z - 1]);
    if y + 1 < z {
      SamePass(c, run, acts, y, z - 1);
    }
  }

  /** What a pass has read and what was over by then is gone when it ends. */
  lemma PassRemoves(c: Codec, run: seq<State>, acts: seq<Step>, z: nat, k: nat)
    requires Faithful(c) && Run(c, run, acts) && z < |acts| && acts[z] == EndPass
    requires run[z].cleaner.base <= k < run[z].cleaner.upTo && k < |run[z].commits|
    requires Over(run[z].commits[k], run[z].cleaner.since)
    ensures run[z].commits[k].path !in run[z].files
  {
    RunKeeps(c, run, acts, z);
    var w := run[z].cleaner;
    assert |w.lines| == w.upTo - w.base;
  }

  /** Ids do not repeat, so a file that is gone stays gone. */
  lemma {:induction false} StaysGone(c: Codec, run: seq<State>, acts: seq<Step>, p: string, z: nat, i: nat)
    requires Run(c, run, acts) && z <= i <= |acts| && p in run[z].used && p !in run[z].files
    ensures p in run[i].used && p !in run[i].files
  {
    if z < i {
      StaysGone(c, run, acts, p, z, i - 1);
      assert run[i] == Do(c, run[i - 1], acts[i - 1]);
    }
  }

  lemma {:induction false} CommitsLast(c: Codec, run: seq<State>, acts: seq<Step>, i: nat, j: nat)
    requires Run(c, run, acts) && i <= j <= |acts|
    ensures run[i].commits <= run[j].commits
  {
    if i < j {
      CommitsLast(c, run, acts, i, j - 1);
      CommitsGrow(c, run, acts, j - 1);
    }
  }

  /** Step x commits a line, a pass reads the journal at y after the expiry, with the journal not emptied in between,
      and ends without error at z: the file is gone from then on. */
  lemma GoneAfterPass(
      c: Codec, run: seq<State>, acts: seq<Step>, x: nat, m: Commit, y: nat, z: nat, i: nat)
    requires Faithful(c) && Run(c, run, acts) && OnePass(run, acts, y, z) && acts[z] == EndPass && z <= i <= |acts|
    requires x < y && run[x + 1].commits == run[x].commits + [m]
    requires Over(m, acts[y].now) && forall k :: x < k < y ==> !Empties(run[k], acts[k])
    ensures m.path !in run[i].files
  {
    var k := |run[x].commits|;
    CommitsGrow(c, run, acts, x);
    RunKeeps(c, run, acts, x);
    assert run[x + 1] == Do(c, run[x], acts[x]);
    LinesKept(c, run, acts, x + 1, y);
    SamePass(c, run, acts, y, z);
    CommitsLast(c, run, acts, y, z);
    PassRemoves(c, run, acts, z, k);
    RunKeeps(c, run, acts, z);
    StaysGone(c, run, acts, m.path, z, i);
  }

  /** Line k is lost: neither the journal nor the pass under way has it. */
  ghost predicate Lost(s: State, k: nat, p: string) {
    && k < s.base && k < |s.commits| && s.commits[k].path == p && p in s.files
    && (s.cleaner.Working? ==> k < s.cleaner.base)
  }

  lemma LostStep(c: Codec, s: State, a: Step, k: nat, p: string)
    requires Faithful(c) && Inv(c, s) && Lost(s, k, p) && Enabled(s, a)
    ensures Lost(Do(c, s, a), k, p)
  {
    if a.NextLine? {
      var m := LineEffect(c, s, a.now, a.removable);
      assert m.path != p;
    }
  }

  /** A file that is still there when the journal is emptied, with its line in it, is never removed. */
  lemma {:induction false} NeverRemoved(c: Codec, run: seq<State>, acts: seq<Step>, z: nat, i: nat, k: nat)
    requires Faithful(c) && Run(c, run, acts) && z < i <= |acts| && Empties(run[z], acts[z])
    requires k < |run[z].commits| && run[z].commits[k].path in run[z].files
    ensures run[z].commits[k].path in run[i].files && Lost(run[i], k, run[z].commits[k].path)
    decreases i
  {
    if i == z + 1 {
      assert run[i] == Do(c, run[z], acts[z]);
    } else {
      NeverRemoved(c, run, acts, z, i - 1, k);
      RunKeeps(c, run, acts, i - 1);
      LostStep(c, run[i - 1], acts[i - 1], k, run[z].commits[k].path);
    }
  }

  // ---------------------------------------------------------------- a mix-up

  lemma Extend(c: Codec, run: seq<State>, acts: seq<Step>, a: Step) returns (run': seq<State>, acts': seq<Step>)
    requires Run(c, run, acts) && Enabled(run[|acts|], a)
    ensures Run(c, run', acts') && acts' == acts + [a] && run' == run + [Do(c, run[|acts|], a)]
  {
    run', acts' := run + [Do(c, run[|acts|], a)], acts + [a];
  }

  lemma TwoCreated(c: Codec) returns (run: seq<State>, acts: seq<Step>)
    ensures Run(c, run, acts) && acts == [Create(1, "a"), Create(2, "b")]
    ensures run[|acts|].uploads == map[1 := Created("a"), 2 := Created("b")]
    ensures run[|acts|].commits == [] && run[|acts|].clock == 0
  {
    run, acts := Extend(c, [Start], [], Create(1, "a"));
    assert "a"[0] != "b"[0];
    run, acts := Extend(c, run, acts, Create(2, "b"));
  }

  /** Two uploads, the second sets the shared field before the first has read it: the first one's file is journaled
      with the lifetime of the second. */
  lemma MixUpExample(c: Codec, h1: Header, h2: Header) returns (run: seq<State>, acts: seq<Step>)
    requires TtlFor(h1) != TtlFor(h2)
    ensures Run(c, run, acts)
    ensures acts == [Create(1, "a"), Create(2, "b"), SetTtl(1, h1), SetTtl(2, h2), ReadTtl(1), CommitEntry(1, 0)]
    ensures run[|acts|].commits == [Commit("a", 0, TtlFor(h2))]
  {
    run, acts := TwoCreated(c);
    run, acts := Extend(c, run, acts, SetTtl(1, h1));
    run, acts := Extend(c, run, acts, SetTtl(2, h2));
    run, acts := Extend(c, run, acts, ReadTtl(1));
    run, acts := Extend(c, run, acts, CommitEntry(1, 0));
  }

  // ---------------------------------------------------------------- a lost line

  lemma OneCommitted(c: Codec, p: string) returns (run: seq<State>, acts: seq<Step>)
    requires CleanPath(p)
    ensures Run(c, run, acts)
    ensures run[|acts|].commits == [Commit(p, 0, DEFAULT_TTL)] && run[|acts|].files == {p} && run[|acts|].clock == 0
    ensures run[|acts|].cleaner == Resting && run[|acts|].base == 0
  {
    run, acts := Extend(c, [Start], [], Create(1, p));
    run, acts := Extend(c, run, acts, SetTtl(1, Absent));
    run, acts := Extend(c, run, acts, ReadTtl(1));
    run, acts := Extend(c, run, acts, CommitEntry(1, 0));
  }

  /** One pass over a journal with a single line that has not expired. */
  lemma OnePassed(c: Codec, run: seq<State>, acts: seq<Step>, m: Commit) returns (run': seq<State>, acts': seq<Step>)
    requires Faithful(c) && Run(c, run, acts) && run[|acts|].cleaner == Resting && run[|acts|].base == 0
    requires run[|acts|].commits == [m] && run[|acts|].clock == 0 && !Over(m, 0)
    ensures Run(c, run', acts') && Enabled(run'[|acts'|], EndPass)
    ensures run'[|acts'|].commits == [m] && run'[|acts'|].files == run[|acts|].files
    ensures run'[|acts'|].journal == [Of(c, m)]
  {
    run', acts' := Extend(c, run, acts, ReadJournal(0));
    RunKeeps(c, run', acts', |acts'|);
    var s := run'[|acts'|];
    assert s.commits[0..] == [m] && s.commits[0..1] == [m] && |s.cleaner.lines| == 1;
    var x := LineEffect(c, s, 0, true);
    run', acts' := Extend(c, run', acts', NextLine(0, true));
  }

  /** A path that is long enough fills the journal with its line: the first pass finds nothing to remove and empties
      the journal. */
  lemma LostExample(c: Codec) returns (run: seq<State>, acts: seq<Step>)
    requires Faithful(c)
    ensures Run(c, run, acts) && |acts| > 0 && Empties(run[|acts| - 1], acts[|acts| - 1])
    ensures |run[|acts| - 1].commits| == 1 && run[|acts| - 1].commits[0].path in run[|acts| - 1].files
  {
    var p := seq(MAX_JOURNAL, _ => 'a');
    run, acts := OneCommitted(c, p);
    run, acts := OnePassed(c, run, acts, Commit(p, 0, DEFAULT_TTL));
    var e := Of(c, Commit(p, 0, DEFAULT_TTL));
    assert [e][1..] == [] && Text([e]) == Line(e) + "\n" + "";
    run, acts := Extend(c, run, acts, EndPass);
  }
}
