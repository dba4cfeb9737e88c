/** The bounded ring between the submitters of DNS queries and the resolver threads (jojo.go):
    every interleaving, one channel operation at a time. */
module ResolverRing {

  type Id = nat

  datatype Why = Evicted | TooOld | Resolved

  datatype Answer = Answer(id: Id, why: Why)

  /** `trying` submitters are in the select, `evicting` ones found the ring full and wait for an old request,
      `evictor` ones hold the old request they will answer. `queued` is the history of the ring. */
  datatype State = State(
    submitted: set<Id>, trying: set<Id>, evicting: set<Id>, ring: seq<Id>,
    evictor: map<Id, Id>, resolver: map<nat, Id>, answers: seq<Answer>, queued: seq<Id>)

  datatype Config = Config(cap: nat, threads: nat)

  datatype Step =
    | Submit(id: Id) | Enqueue(id: Id) | FindFull(id: Id) | TakeOldest(id: Id) | AnswerEvicted(id: Id)
    | Take(thread: nat) | AnswerTaken(thread: nat, why: Why)

  const Empty := State({}, {}, {}, [], map[], map[], [], [])

  predicate Enabled(c: Config, s: State, a: Step) {
    match a
    case Submit(id) => id !in s.submitted
    case Enqueue(id) => id in s.trying && |s.ring| < c.cap
    case FindFull(id) => id in s.trying && |s.ring| >= c.cap
    case TakeOldest(id) => id in s.evicting && s.ring != []
    case AnswerEvicted(id) => id in s.evictor
    case Take(t) => t < c.threads && t !in s.resolver && s.ring != []
    case AnswerTaken(t, why) => t in s.resolver && why != Evicted
  }

  function Do(c: Config, s: State, a: Step): State
    requires Enabled(c, s, a)
  {
    match a
    case Submit(id) => s.(submitted := s.submitted + {id}, trying := s.trying + {id})
    case Enqueue(id) => s.(trying := s.trying - {id}, ring := s.ring + [id], queued := s.queued + [id])
    case FindFull(id) => s.(trying := s.trying - {id}, evicting := s.evicting + {id})
    case TakeOldest(id) =>
      s.(evicting := s.evicting - {id}, evictor := s.evictor[id := s.ring[0]], ring := s.ring[1..])
    case AnswerEvicted(id) =>
      s.(evictor := s.evictor - {id}, trying := s.trying + {id},
         answers := s.answers + [Answer(s.evictor[id], Evicted)])
    case Take(t) => s.(resolver := s.resolver[t := s.ring[0]], ring := s.ring[1..])
    case AnswerTaken(t, why) =>
      s.(resolver := s.resolver - {t}, answers := s.answers + [Answer(s.resolver[t], why)])
  }

  predicate Legal(c: Config, s: State, run: seq<Step>)
    decreases |run|
  {
    run == [] || (Enabled(c, s, run[0]) && Legal(c, Do(c, s, run[0]), run[1..]))
  }

  function Exec(c: Config, s: State, run: seq<Step>): State
    requires Legal(c, s, run)
    decreases |run|
  {
    if run == [] then s else Exec(c, Do(c, s, run[0]), run[1..])
  }

  // ---------------------------------------------------------------- exactly one place

  /** Where a request can be: not queued, at a position of the ring, in the hands of an evictor or of a
      resolver thread, or answered as one of the answers. */
  datatype Place =
    | NotQueued
    | InRing(pos: nat)
    | WithEvictor(holder: Id) | WithResolver(thread: nat)
    | Answered(nth: nat)

  predicate At(s: State, id: Id, p: Place) {
    match p
    case NotQueued => id in s.trying || id in s.evicting || id in s.evictor
    case InRing(i) => i < |s.ring| && s.ring[i] == id
    case WithEvictor(e) => e in s.evictor && s.evictor[e] == id
    case WithResolver(t) => t in s.resolver && s.resolver[t] == id
    case Answered(k) => k < |s.answers| && s.answers[k].id == id
  }

  /** Every submitted request is somewhere, nothing is anywhere twice, and nothing else is around. */
  ghost predicate OnePlaceEach(s: State) {
    && (forall id :: id in s.submitted ==> exists p :: At(s, id, p))
    && (forall id, p, q :: At(s, id, p) && At(s, id, q) ==> p == q)
    && (forall id, p :: At(s, id, p) ==> id in s.submitted)
  }

  /** The ring is the part of its history that was not taken yet, and it never exceeds its capacity. */
  ghost predicate RingOk(c: Config, s: State) {
    && |s.ring| <= c.cap && |s.ring| <= |s.queued|
    && s.ring == s.queued[|s.queued| - |s.ring|..]
    && (forall t :: t in s.resolver ==> t < c.threads)
    && s.trying !! s.evicting && s.trying !! s.evictor.Keys && s.evicting !! s.evictor.Keys
  }

  ghost predicate Inv(c: Config, s: State) {
    OnePlaceEach(s) && RingOk(c, s)
  }

  /** Where a request that is at p after a step was before it. */
  function Before(s: State, a: Step, id: Id, p: Place): Place {
    match a
    case Enqueue(x) => if p == InRing(|s.ring|) then NotQueued else p
    case TakeOldest(x) => if p == WithEvictor(x) then InRing(0) else if p.InRing? then InRing(p.pos + 1) else p
    case Take(t) => if p == WithResolver(t) then InRing(0) else if p.InRing? then InRing(p.pos + 1) else p
    case AnswerEvicted(x) => if p == Answered(|s.answers|) then WithEvictor(x) else p
    case AnswerTaken(t, _) => if p == Answered(|s.answers|) then WithResolver(t) else p
    case _ => p
  }

  /** Where a request that is at p before a step goes. */
  function Next(s: State, a: Step, id: Id, p: Place): Place {
    match a
    case Enqueue(x) => if id == x then InRing(|s.ring|) else p
    case TakeOldest(x) => if p == InRing(0) then WithEvictor(x) else if p.InRing? then InRing(p.pos - 1) else p
    case Take(t) => if p == InRing(0) then WithResolver(t) else if p.InRing? then InRing(p.pos - 1) else p
    case AnswerEvicted(x) => if p == WithEvictor(x) then Answered(|s.answers|) else p
    case AnswerTaken(t, _) => if p == WithResolver(t) then Answered(|s.answers|) else p
    case _ => p
  }

  lemma GoesTo(c: Config, s: State, a: Step, id: Id, p: Place)
    requires Inv(c, s) && Enabled(c, s, a) && At(s, id, p)
    ensures At(Do(c, s, a), id, Next(s, a, id, p))
  {
    if a.Enqueue? && a.id == id {
      assert At(s, id, NotQueued);
    }
  }

  lemma ComesFrom(c: Config, s: State, a: Step, id: Id, p: Place)
    requires Inv(c, s) && Enabled(c, s, a) && At(Do(c, s, a), id, p)
    ensures a != Submit(id) ==> At(s, id, Before(s, a, id, p))
    ensures a == Submit(id) ==> p == NotQueued
  {
    if a == Submit(id) {
      assert At(s, id, p) ==> id in s.submitted;
    }
  }

  lemma StepKeepsPlaces(c: Config, s: State, a: Step)
    requires Inv(c, s) && Enabled(c, s, a)
    ensures OnePlaceEach(Do(c, s, a))
  {
    var s' := Do(c, s, a);
    forall id | id in s'.submitted
      ensures exists p :: At(s', id, p)
    {
      if a == Submit(id) {
        assert At(s', id, NotQueued);
      } else {
        var p :| At(s, id, p);
        GoesTo(c, s, a, id, p);
      }
    }
    forall id, p, q | At(s', id, p) && At(s', id, q)
      ensures p == q
    {
      ComesFrom(c, s, a, id, p);
      ComesFrom(c, s, a, id, q);
      if a != Submit(id) {
        assert Before(s, a, id, p) == Before(s, a, id, q);
        SamePlace(c, s, a, id, p, q);
      }
    }
    forall id, p | At(s', id, p)
      ensures id in s'.submitted
    {
      ComesFrom(c, s, a, id, p);
    }
  }

  /** A step never merges two places of one request. */
  lemma SamePlace(c: Config, s: State, a: Step, id: Id, p: Place, q: Place)
    requires Inv(c, s) && Enabled(c, s, a) && a != Submit(id)
    requires At(Do(c, s, a), id, p) && At(Do(c, s, a), id, q) && Before(s, a, id, p) == Before(s, a, id, q)
    ensures p == q
  {
    match a {
      case Enqueue(x) => assert p == InRing(|s.ring|) ==> !At(Do(c, s, a), id, NotQueued);
      case _ =>
    }
  }

  lemma StepKeeps(c: Config, s: State, a: Step)
    requires Inv(c, s) && Enabled(c, s, a)
    ensures Inv(c, Do(c, s, a))
  {
    StepKeepsPlaces(c, s, a);
    if a.Submit? {
      assert !At(s, a.id, NotQueued);
    }
  }

  /** In every interleaving each request is in exactly one place, so it is answered at most once and never lost,
      and the ring is a bounded queue of the requests not taken yet, oldest first. */
  lemma {:induction false} EveryRunKeeps(c: Config, s: State, run: seq<Step>)
    requires Inv(c, s) && Legal(c, s, run)
    ensures Inv(c, Exec(c, s, run))
    decreases |run|
  {
    if run != [] {
      StepKeeps(c, s, run[0]);
      EveryRunKeeps(c, Do(c, s, run[0]), run[1..]);
    }
  }

  /** Whoever takes a request from the ring in a run from the start, evictor or resolver, takes the one that
      was queued first among all that are still there. */
  lemma OldestFirst(c: Config, run: seq<Step>, a: Step)
    requires Legal(c, Empty, run) && Enabled(c, Exec(c, Empty, run), a) && (a.TakeOldest? || a.Take?)
    ensures var s := Exec(c, Empty, run);
            var k := |s.queued| - |s.ring|;
            && 0 <= k < |s.queued|
            && At(Do(c, s, a), s.queued[k], if a.TakeOldest? then WithEvictor(a.id) else WithResolver(a.thread))
            && Do(c, s, a).ring == s.queued[k + 1..]
  {
    EveryRunKeeps(c, Empty, run);
  }

  // ---------------------------------------------------------------- where answers come from

  /** The state after the first k steps. */
  function StateAt(c: Config, run: seq<Step>, k: nat): State
    requires k <= |run| && Legal(c, Empty, run[..k])
  {
    Exec(c, Empty, run[..k])
  }

  lemma {:induction false} Last(c: Config, s: State, run: seq<Step>)
    requires run != [] && Legal(c, s, run)
    ensures var n := |run| - 1;
            && Legal(c, s, run[..n]) && Enabled(c, Exec(c, s, run[..n]), run[n])
            && Exec(c, s, run) == Do(c, Exec(c, s, run[..n]), run[n])
    decreases |run|
  {
    if |run| > 1 {
      Last(c, Do(c, s, run[0]), run[1..]);
      assert run[1..][..|run| - 2] == run[..|run| - 1][1..];
    } else {
      assert run[1..] == [] && run[..0] == [];
    }
  }

  /** One step back. */
  lemma StepBack(c: Config, run: seq<Step>, k: nat)
    requires 0 < k <= |run| && Legal(c, Empty, run[..k])
    ensures Legal(c, Empty, run[..k - 1]) && Enabled(c, StateAt(c, run, k - 1), run[k - 1])
    ensures StateAt(c, run, k) == Do(c, StateAt(c, run, k - 1), run[k - 1])
  {
    Last(c, Empty, run[..k]);
    assert run[..k][..k - 1] == run[..k - 1];
  }

  /** A submitter that waits to evict has found the ring full. */
  lemma {:induction false} FoundFull(c: Config, run: seq<Step>, k: nat, e: Id) returns (f: nat)
    requires k <= |run| && Legal(c, Empty, run[..k]) && e in StateAt(c, run, k).evicting
    ensures f < k && run[f] == FindFull(e) && Legal(c, Empty, run[..f]) && |StateAt(c, run, f).ring| >= c.cap
  {
    StepBack(c, run, k);
    if run[k - 1] == FindFull(e) {
      f := k - 1;
    } else {
      f := FoundFull(c, run, k - 1, e);
    }
  }

  /** Whoever holds a request, evictor or resolver thread, has taken it from the head of the ring. */
  ghost predicate TookFrom(c: Config, run: seq<Step>, t: nat, a: Step, id: Id) {
    && t < |run| && run[t] == a && Legal(c, Empty, run[..t])
    && StateAt(c, run, t).ring != [] && StateAt(c, run, t).ring[0] == id
  }

  lemma {:induction false} EvictorTook(c: Config, run: seq<Step>, k: nat, e: Id) returns (t: nat, f: nat)
    requires k <= |run| && Legal(c, Empty, run[..k]) && e in StateAt(c, run, k).evictor
    ensures t < k && TookFrom(c, run, t, TakeOldest(e), StateAt(c, run, k).evictor[e])
    ensures f < t && run[f] == FindFull(e) && Legal(c, Empty, run[..f]) && |StateAt(c, run, f).ring| >= c.cap
  {
    StepBack(c, run, k);
    if run[k - 1] == TakeOldest(e) {
      t := k - 1;
      f := FoundFull(c, run, t, e);
    } else {
      t, f := EvictorTook(c, run, k - 1, e);
    }
  }

  lemma {:induction false} ResolverTook(c: Config, run: seq<Step>, k: nat, x: nat) returns (t: nat)
    requires k <= |run| && Legal(c, Empty, run[..k]) && x in StateAt(c, run, k).resolver
    ensures t < k && TookFrom(c, run, t, Take(x), StateAt(c, run, k).resolver[x])
  {
    StepBack(c, run, k);
    if run[k - 1] == Take(x) {
      t := k - 1;
    } else {
      t := ResolverTook(c, run, k - 1, x);
    }
  }

  /** Every answer was given at step i for a request taken from the head of the ring at step t: as evicted by a
      submitter that had found the ring full at step f, or as resolved or too old by a resolver thread. */
  lemma {:induction false} AnsweredBy(c: Config, run: seq<Step>, k: nat, n: nat) returns (f: nat, t: nat, i: nat)
    requires k <= |run| && Legal(c, Empty, run[..k]) && n < |StateAt(c, run, k).answers|
    ensures var x := StateAt(c, run, k).answers[n];
            && t < i < k
            && match run[i]
               case AnswerEvicted(e) =>
                 && x.why == Evicted && TookFrom(c, run, t, TakeOldest(e), x.id)
                 && f < t && run[f] == FindFull(e) && Legal(c, Empty, run[..f])
                 && |StateAt(c, run, f).ring| >= c.cap
               case AnswerTaken(r, why) => x.why == why != Evicted && TookFrom(c, run, t, Take(r), x.id)
               case _ => false
  {
    StepBack(c, run, k);
    if n < |StateAt(c, run, k - 1).answers| {
      f, t, i := AnsweredBy(c, run, k - 1, n);
    } else {
      i := k - 1;
      f := 0;
      if run[i].AnswerEvicted? {
        t, f := EvictorTook(c, run, i, run[i].id);
      } else {
        t := ResolverTook(c, run, i, run[i].thread);
      }
    }
  }

  // ---------------------------------------------------------------- who can still be answered

  predicate IsAnswered(s: State, id: Id) {
    exists k :: 0 <= k < |s.answers| && s.answers[k].id == id
  }

  /** A submitter that found the ring full waits for an old request although the ring has run empty,
      and nobody is left who could put another request there. */
  predicate Stuck(s: State, id: Id) {
    id in s.evicting && s.ring == [] && s.trying == {} && s.evictor.Keys == {}
  }

  ghost predicate NoArrivals(run: seq<Step>) {
    forall i :: 0 <= i < |run| ==> !run[i].Submit?
  }

  /** A way to go on from s, without new arrivals, after which id is answered. */
  ghost predicate Answers(c: Config, s: State, run: seq<Step>, id: Id) {
    NoArrivals(run) && Legal(c, s, run) && IsAnswered(Exec(c, s, run), id)
  }

  lemma Prepend(c: Config, s: State, a: Step, run: seq<Step>, id: Id)
    requires !a.Submit? && Enabled(c, s, a) && Answers(c, Do(c, s, a), run, id)
    ensures Answers(c, s, [a] + run, id)
  {
    assert ([a] + run)[1..] == run;
  }

  lemma NewestAnswer(s: State, id: Id)
    requires s.answers != [] && s.answers[|s.answers| - 1].id == id
    ensures IsAnswered(s, id)
  {
  }

  /** A request in the hands of a resolver thread can be answered at once. */
  lemma FromResolver(c: Config, s: State, t: nat) returns (run: seq<Step>)
    requires t in s.resolver
    ensures Answers(c, s, run, s.resolver[t])
  {
    var a := AnswerTaken(t, Resolved);
    NewestAnswer(Do(c, s, a), s.resolver[t]);
    Prepend(c, s, a, [], s.resolver[t]);
    run := [a] + [];
  }

  /** A request in the ring is answered once the resolver threads have worked off those before it. */
  lemma {:induction false} FromRing(c: Config, s: State, pos: nat) returns (run: seq<Step>)
    requires c.threads >= 1 && pos < |s.ring|
    ensures Answers(c, s, run, s.ring[pos])
    decreases pos, 0 in s.resolver
  {
    if 0 in s.resolver {
      var a := AnswerTaken(0, Resolved);
      run := FromRing(c, Do(c, s, a), pos);
      Prepend(c, s, a, run, s.ring[pos]);
      run := [a] + run;
    } else {
      var s' := Do(c, s, Take(0));
      if pos == 0 {
        run := FromResolver(c, s', 0);
      } else {
        run := FromRing(c, s', pos - 1);
      }
      Prepend(c, s, Take(0), run, s.ring[pos]);
      run := [Take(0)] + run;
    }
  }

  lemma FromTryingWithRoom(c: Config, s: State, id: Id) returns (run: seq<Step>)
    requires c.threads >= 1 && id in s.trying && |s.ring| < c.cap
    ensures Answers(c, s, run, id)
  {
    run := FromRing(c, Do(c, s, Enqueue(id)), |s.ring|);
    Prepend(c, s, Enqueue(id), run, id);
    run := [Enqueue(id)] + run;
  }

  /** An evictor that holds an old request gets rid of it, and then there is room for its own. */
  lemma FromEvictor(c: Config, s: State, id: Id) returns (run: seq<Step>)
    requires c.threads >= 1 && id in s.evictor && |s.ring| < c.cap
    ensures Answers(c, s, run, id)
  {
    run := FromTryingWithRoom(c, Do(c, s, AnswerEvicted(id)), id);
    Prepend(c, s, AnswerEvicted(id), run, id);
    run := [AnswerEvicted(id)] + run;
  }

  lemma FromEvicting(c: Config, s: State, id: Id) returns (run: seq<Step>)
    requires c.threads >= 1 && id in s.evicting && s.ring != [] && |s.ring| <= c.cap
    ensures Answers(c, s, run, id)
  {
    run := FromEvictor(c, Do(c, s, TakeOldest(id)), id);
    Prepend(c, s, TakeOldest(id), run, id);
    run := [TakeOldest(id)] + run;
  }

  lemma FromTrying(c: Config, s: State, id: Id) returns (run: seq<Step>)
    requires c.threads >= 1 && c.cap >= 1 && id in s.trying && |s.ring| <= c.cap
    ensures Answers(c, s, run, id)
  {
    if |s.ring| < c.cap {
      run := FromTryingWithRoom(c, s, id);
    } else {
      run := FromEvicting(c, Do(c, s, FindFull(id)), id);
      Prepend(c, s, FindFull(id), run, id);
      run := [FindFull(id)] + run;
    }
  }

  /** With the ring empty, an evicting submitter is rescued by anyone who is about to queue. */
  lemma FromEmptyRing(c: Config, s: State, id: Id) returns (run: seq<Step>)
    requires c.threads >= 1 && c.cap >= 1 && RingOk(c, s) && id in s.evicting && s.ring == [] && !Stuck(s, id)
    ensures Answers(c, s, run, id)
  {
    var helper, s1;
    if s.trying != {} {
      helper :| helper in s.trying;
      s1 := s;
    } else {
      helper :| helper in s.evictor.Keys;
      s1 := Do(c, s, AnswerEvicted(helper));
    }
    run := FromEvicting(c, Do(c, s1, Enqueue(helper)), id);
    Prepend(c, s1, Enqueue(helper), run, id);
    run := [Enqueue(helper)] + run;
    if s.trying == {} {
      Prepend(c, s, AnswerEvicted(helper), run, id);
      run := [AnswerEvicted(helper)] + run;
    }
  }

  lemma CanBeAnswered(c: Config, s: State, id: Id) returns (run: seq<Step>)
    requires c.threads >= 1 && c.cap >= 1 && Inv(c, s) && id in s.submitted && !Stuck(s, id)
    ensures Answers(c, s, run, id)
  {
    var p :| At(s, id, p);
    match p {
      case Answered(k) =>
        run := [];
      case WithResolver(t) =>
        run := FromResolver(c, s, t);
      case WithEvictor(e) =>
        NewestAnswer(Do(c, s, AnswerEvicted(e)), id);
        Prepend(c, s, AnswerEvicted(e), [], id);
        run := [AnswerEvicted(e)] + [];
      case InRing(i) =>
        run := FromRing(c, s, i);
      case NotQueued =>
        if id in s.trying {
          run := FromTrying(c, s, id);
        } else if id in s.evicting {
          if s.ring != [] {
            run := FromEvicting(c, s, id);
          } else {
            run := FromEmptyRing(c, s, id);
          }
        } else if |s.ring| < c.cap {
          run := FromEvictor(c, s, id);
        } else {
          run := FromTrying(c, Do(c, s, AnswerEvicted(id)), id);
          Prepend(c, s, AnswerEvicted(id), run, id);
          run := [AnswerEvicted(id)] + run;
        }
    }
  }

  /** A stuck request stays stuck until somebody submits another one. */
  lemma {:induction false} StuckForever(c: Config, s: State, run: seq<Step>, id: Id)
    requires Inv(c, s) && Stuck(s, id) && NoArrivals(run) && Legal(c, s, run)
    ensures !IsAnswered(Exec(c, s, run), id)
    decreases |run|
  {
    if run == [] {
      assert At(s, id, NotQueued);
      forall k | 0 <= k < |s.answers|
        ensures s.answers[k].id != id
      {
        assert !At(s, id, Answered(k));
      }
    } else {
      StepKeeps(c, s, run[0]);
      assert !run[0].Submit?;
      StuckForever(c, Do(c, s, run[0]), run[1..], id);
    }
  }

  /** In every reachable state a submitted request can still be answered without new arrivals,
      exactly unless it is stuck: its submitter waits to evict from a ring that has run empty. */
  lemma AnswerableIffNotStuck(c: Config, past: seq<Step>, id: Id)
    requires c.threads >= 1 && c.cap >= 1 && Legal(c, Empty, past) && id in Exec(c, Empty, past).submitted
    ensures (exists run :: Answers(c, Exec(c, Empty, past), run, id)) <==> !Stuck(Exec(c, Empty, past), id)
  {
    var s := Exec(c, Empty, past);
    EveryRunKeeps(c, Empty, past);
    if Stuck(s, id) {
      forall run | NoArrivals(run) && Legal(c, s, run)
        ensures !IsAnswered(Exec(c, s, run), id)
      {
        StuckForever(c, s, run, id);
      }
    } else {
      var run := CanBeAnswered(c, s, id);
    }
  }

  /** One slot, one thread: the second submitter finds the ring full, the thread empties it, and the second
      request hangs. */
  lemma StuckExample()
    ensures var run := [Submit(1), Enqueue(1), Submit(2), FindFull(2), Take(0), AnswerTaken(0, Resolved)];
            Legal(Config(1, 1), Empty, run) && Stuck(Exec(Config(1, 1), Empty, run), 2)
  {
    var c := Config(1, 1);
    var s1 := Do(c, Empty, Submit(1));
    var s2 := Do(c, s1, Enqueue(1));
    var s3 := Do(c, s2, Submit(2));
    var s4 := Do(c, s3, FindFull(2));
    var s5 := Do(c, s4, Take(0));
    var s6 := Do(c, s5, AnswerTaken(0, Resolved));
    var run := [Submit(1), Enqueue(1), Submit(2), FindFull(2), Take(0), AnswerTaken(0, Resolved)];
    assert run[5..][1..] == [] && Stuck(s6, 2);
    Unroll(c, s5, run[5..]);
    Unroll(c, s4, run[4..]);
    Unroll(c, s3, run[3..]);
    Unroll(c, s2, run[2..]);
    Unroll(c, s1, run[1..]);
    Unroll(c, Empty, run);
  }

  lemma Unroll(c: Config, s: State, run: seq<Step>)
    requires run != [] && Enabled(c, s, run[0]) && Legal(c, Do(c, s, run[0]), run[1..])
    ensures Legal(c, s, run) && Exec(c, s, run) == Exec(c, Do(c, s, run[0]), run[1..])
  {
  }
}
