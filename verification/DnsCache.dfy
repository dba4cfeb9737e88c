/** The reply cache of the DNS forwarder: keys, lifetimes and stale fallback (jojo.go). */
module DnsCache {
  import opened Options

  const NEG_TTL := 600
  const MIN_TTL := 60
  const MAX_TTL := 604800
  const CLASS_INET := 1

  /** `labels` is the number of labels in the name, as the DNS library counts them. */
  datatype Question = Question(name: string, labels: nat, qtype: nat, qclass: nat)

  datatype Extra = Opt(dnssec: bool) | OtherExtra

  datatype Request = Request(id: nat, questions: seq<Question>, extra: seq<Extra>)

  datatype Record = Record(ttl: nat, data: string)

  datatype Reply = Reply(id: nat, questions: seq<Question>, answers: seq<Record>)

  datatype Key = Key(name: string, qtype: nat, dnssec: bool)

  // ---------------------------------------------------------------- keys

  function LowerChar(c: char): char {
    if 'A' <= c <= 'Z' then c - 'A' + 'a' else c
  }

  function Lower(s: string): string {
    seq(|s|, i requires 0 <= i < |s| => LowerChar(s[i]))
  }

  /** The flag of the last OPT record, if there is any. */
  function Dnssec(extra: seq<Extra>): bool {
    extra != [] && if extra[|extra| - 1].Opt? then extra[|extra| - 1].dnssec else Dnssec(extra[..|extra| - 1])
  }

  predicate Acceptable(req: Request, minLabels: int) {
    |req.questions| == 1 && req.questions[0].qclass == CLASS_INET && req.questions[0].labels >= minLabels
  }

  method GetKey(req: Request, minLabels: int) returns (r: Option<Key>)
    ensures r.Some? <==>
            |req.questions| == 1 && req.questions[0].qclass == CLASS_INET && req.questions[0].labels >= minLabels
    ensures r.Some? <==> Acceptable(req, minLabels)
    ensures r.Some? ==> r.value == KeyOf(req)
  {
    if |req.questions| != 1 {
      return None;
    }
    var question := req.questions[0];
    if question.qclass != CLASS_INET || question.labels < minLabels {
      return None;
    }
    var dnssec := false;
    for i := 0 to |req.extra|
      invariant dnssec == Dnssec(req.extra[..i])
    {
      assert req.extra[..i + 1][..i] == req.extra[..i];
      if req.extra[i].Opt? {
        dnssec := req.extra[i].dnssec;
      }
    }
    assert req.extra[..|req.extra|] == req.extra;
    return Some(Key(Lower(question.name), question.qtype, dnssec));
  }

  /** The same character, or the same ASCII letter in another case. */
  predicate SameLetter(c: char, d: char) {
    c == d || ('A' <= c <= 'Z' && d as int == c as int + 32) || ('A' <= d <= 'Z' && c as int == d as int + 32)
  }

  /** There is an OPT record, and the last one has the flag. */
  predicate WantsDnssec(extra: seq<Extra>) {
    exists i :: 0 <= i < |extra| && extra[i] == Opt(true) && forall j :: i < j < |extra| ==> extra[j] == OtherExtra
  }

  /** Two requests ask for the same thing: same name up to case, same type, same DNSSEC flag. */
  ghost predicate SameQuery(a: Request, b: Request) {
    && |a.questions| == 1 && |b.questions| == 1
    && |a.questions[0].name| == |b.questions[0].name|
    && (forall i :: 0 <= i < |a.questions[0].name| ==> SameLetter(a.questions[0].name[i], b.questions[0].name[i]))
    && a.questions[0].qtype == b.questions[0].qtype
    && (WantsDnssec(a.extra) <==> WantsDnssec(b.extra))
  }

  lemma {:induction false} DnssecIff(extra: seq<Extra>)
    ensures Dnssec(extra) <==> WantsDnssec(extra)
  {
    if extra != [] && extra[|extra| - 1] == OtherExtra {
      var rest := extra[..|extra| - 1];
      DnssecIff(rest);
      if WantsDnssec(rest) {
        var i :| 0 <= i < |rest| && rest[i] == Opt(true) && forall j :: i < j < |rest| ==> rest[j] == OtherExtra;
        assert extra[i] == Opt(true) && forall j :: i < j < |rest| ==> extra[j] == rest[j];
      }
      if WantsDnssec(extra) {
        var i :| 0 <= i < |extra| && extra[i] == Opt(true) && forall j :: i < j < |extra| ==> extra[j] == OtherExtra;
        assert rest[i] == Opt(true) && forall j :: i < j < |rest| ==> rest[j] == extra[j];
      }
    }
  }

  function KeyOf(req: Request): Key
    requires |req.questions| == 1
  {
    Key(Lower(req.questions[0].name), req.questions[0].qtype, Dnssec(req.extra))
  }

  lemma KeysMatchQueries(a: Request, b: Request)
    requires |a.questions| == 1 && |b.questions| == 1
    ensures KeyOf(a) == KeyOf(b) <==> SameQuery(a, b)
  {
    var x, y := Lower(a.questions[0].name), Lower(b.questions[0].name);
    DnssecIff(a.extra);
    DnssecIff(b.extra);
    assert forall i :: 0 <= i < |x| ==> x[i] == LowerChar(a.questions[0].name[i]);
    assert forall i :: 0 <= i < |y| ==> y[i] == LowerChar(b.questions[0].name[i]);
    if SameQuery(a, b) {
      assert x == y;
    }
  }

  // ---------------------------------------------------------------- lifetimes

  /** The smallest of some lifetimes and a bound. */
  function Smallest(answers: seq<Record>, bound: nat): nat {
    if answers == [] then bound
    else
      var m := Smallest(answers[..|answers| - 1], bound);
      if answers[|answers| - 1].ttl < m then answers[|answers| - 1].ttl else m
  }

  /** The lifetime of a reply: the smallest of its records' lifetimes, kept within bounds. */
  function MinTTL(reply: Reply): (ttl: nat)
    ensures MIN_TTL <= ttl <= MAX_TTL
    ensures reply.answers == [] ==> ttl == NEG_TTL
    ensures forall r :: r in reply.answers ==> ttl <= r.ttl || (ttl == MIN_TTL && r.ttl < MIN_TTL)
    ensures reply.answers != [] && ttl < MAX_TTL ==>
              exists r :: r in reply.answers && (r.ttl == ttl || (ttl == MIN_TTL && r.ttl < MIN_TTL))
  {
    if reply.answers == [] then NEG_TTL
    else
      SmallestBounds(reply.answers, MAX_TTL);
      var m := Smallest(reply.answers, MAX_TTL);
      if m < MIN_TTL then MIN_TTL else m
  }

  lemma {:induction false} SmallestBounds(answers: seq<Record>, bound: nat)
    ensures Smallest(answers, bound) <= bound
    ensures forall i :: 0 <= i < |answers| ==> Smallest(answers, bound) <= answers[i].ttl
    ensures Smallest(answers, bound) == bound ||
            exists i :: 0 <= i < |answers| && Smallest(answers, bound) == answers[i].ttl
  {
    if answers != [] {
      SmallestBounds(answers[..|answers| - 1], bound);
      assert forall i :: 0 <= i < |answers| - 1 ==> answers[..|answers| - 1][i] == answers[i];
    }
  }

  method GetMinTTL(reply: Reply) returns (ttl: nat)
    ensures ttl == MinTTL(reply)
    ensures MIN_TTL <= ttl <= MAX_TTL
    ensures forall r :: r in reply.answers ==> ttl <= r.ttl || (ttl == MIN_TTL && r.ttl < MIN_TTL)
    ensures reply.answers == [] ==> ttl == NEG_TTL
  {
    if |reply.answers| <= 0 {
      return NEG_TTL;
    }
    ttl := MAX_TTL;
    for i := 0 to |reply.answers|
      invariant ttl == Smallest(reply.answers[..i], MAX_TTL)
    {
      assert reply.answers[..i + 1][..i] == reply.answers[..i];
      if reply.answers[i].ttl < ttl {
        ttl := reply.answers[i].ttl;
      }
    }
    assert reply.answers[..|reply.answers|] == reply.answers;
    SmallestBounds(reply.answers, MAX_TTL);
    if ttl < MIN_TTL {
      ttl := MIN_TTL;
    }
  }

  // ---------------------------------------------------------------- the cache under concurrent requests

  datatype Val = Val(validUntil: int, reply: Reply)

  /** A resolution that succeeded. */
  datatype Resolution = Resolution(req: Request, at: int, reply: Reply)

  /** A request whose resolution is under way, with the cache value it found before. */
  datatype Call = Call(req: Request, found: Option<Val>)

  datatype Attempt = NotTried | Failed | Succeeded

  /** A reply that went out, when, and after what kind of resolution. */
  datatype Sent = Sent(req: Request, reply: Reply, now: int, attempt: Attempt)

  datatype State = State(cache: map<Key, Val>, calls: map<nat, Call>, history: seq<Resolution>, sent: seq<Sent>)

  datatype Step =
    | Begin(call: nat, req: Request, now: int, dropped: bool)
    | Finish(call: nat, result: Option<Reply>, now: int)
    | Evict(key: Key)
    | Purge

  const Start := State(map[], map[], [], [])

  function Found(s: State, req: Request): Option<Val>
    requires |req.questions| == 1
  {
    if KeyOf(req) in s.cache then Some(s.cache[KeyOf(req)]) else None
  }

  function Personal(req: Request, reply: Reply): Reply {
    reply.(id := req.id, questions := req.questions)
  }

  predicate Enabled(s: State, a: Step, minLabels: int) {
    match a
    case Begin(call, req, _, _) => call !in s.calls && Acceptable(req, minLabels)
    case Finish(call, _, _) => call in s.calls && |s.calls[call].req.questions| == 1
    case _ => true
  }

  /** The two halves of route, before and after the resolution, and what may happen to the cache meanwhile.
      `dropped` is the rate limiter's decision. */
  function Do(s: State, a: Step, minLabels: int): State
    requires Enabled(s, a, minLabels)
  {
    match a
    case Begin(call, req, now, dropped) =>
      var found := Found(s, req);
      if found.Some? && now < found.value.validUntil then
        s.(sent := s.sent + [Sent(req, Personal(req, found.value.reply), now, NotTried)])
      else if dropped then s
      else s.(calls := s.calls[call := Call(req, found)])
    case Finish(call, result, now) =>
      var c := s.calls[call];
      var s' := s.(calls := s.calls - {call});
      match result {
        case Some(reply) =>
          s'.(cache := s.cache[KeyOf(c.req) := Val(now + MinTTL(reply), reply)],
              history := s.history + [Resolution(c.req, now, reply)],
              sent := s.sent + [Sent(c.req, reply, now, Succeeded)])
        case None =>
          if c.found.None? then s'
          else s'.(sent := s.sent + [Sent(c.req, Personal(c.req, c.found.value.reply), now, Failed)])
      }
    case Evict(key) => s.(cache := s.cache - {key})
    case Purge => s.(cache := map[])
  }

  /** A cache value stems from an earlier resolution of the same query and expires when that one's lifetime ends. */
  ghost predicate StemsFrom(v: Val, req: Request, h: Resolution) {
    SameQuery(h.req, req) && v.reply == h.reply && v.validUntil == h.at + MinTTL(h.reply)
  }

  ghost predicate Known(history: seq<Resolution>, v: Val, req: Request) {
    exists i :: 0 <= i < |history| && StemsFrom(v, req, history[i])
  }

  /** What is promised of a reply that went out. */
  ghost predicate Honest(history: seq<Resolution>, x: Sent) {
    && |x.req.questions| == 1
    && match x.attempt
       case Succeeded => Resolution(x.req, x.now, x.reply) in history
       case _ =>
         && x.reply.id == x.req.id && x.reply.questions == x.req.questions
         && exists i :: 0 <= i < |history| && FromHistory(history[i], x)
  }

  /** The reply is the caller's own copy of h's; without a failed attempt it is within its lifetime. */
  ghost predicate FromHistory(h: Resolution, x: Sent) {
    && SameQuery(h.req, x.req) && x.reply == Reply(x.req.id, x.req.questions, h.reply.answers)
    && (x.attempt == NotTried ==> x.now < h.at + MinTTL(h.reply))
  }

  ghost predicate Inv(s: State) {
    && (forall h :: h in s.history ==> |h.req.questions| == 1)
    && (forall k :: k in s.cache ==> exists i :: 0 <= i < |s.history| && Holds(s.cache, k, s.history[i]))
    && (forall c :: c in s.calls ==>
          |s.calls[c].req.questions| == 1
          && (s.calls[c].found.Some? ==> Known(s.history, s.calls[c].found.value, s.calls[c].req)))
    && (forall k :: 0 <= k < |s.sent| ==> Honest(s.history, s.sent[k]))
  }

  ghost predicate Holds(cache: map<Key, Val>, k: Key, h: Resolution)
    requires k in cache
  {
    && |h.req.questions| == 1 && KeyOf(h.req) == k
    && cache[k].reply == h.reply && cache[k].validUntil == h.at + MinTTL(h.reply)
  }

  lemma FoundIsKnown(s: State, req: Request)
    requires Inv(s) && |req.questions| == 1 && Found(s, req).Some?
    ensures Known(s.history, Found(s, req).value, req)
  {
    var k := KeyOf(req);
    var i :| 0 <= i < |s.history| && Holds(s.cache, k, s.history[i]);
    KeysMatchQueries(s.history[i].req, req);
    assert StemsFrom(s.cache[k], req, s.history[i]);
  }

  lemma HistoryGrows(history: seq<Resolution>, h: Resolution, v: Val, req: Request, x: Sent)
    ensures Known(history, v, req) ==> Known(history + [h], v, req)
    ensures Honest(history, x) ==> Honest(history + [h], x)
  {
    var longer := history + [h];
    if Known(history, v, req) {
      var i :| 0 <= i < |history| && StemsFrom(v, req, history[i]);
      assert StemsFrom(v, req, longer[i]);
    }
    if Honest(history, x) && x.attempt != Succeeded {
      var i :| 0 <= i < |history| && FromHistory(history[i], x);
      assert FromHistory(longer[i], x);
    }
  }

  /** A personal copy of a known value is an honest reply, if it is not expired or a resolution has failed. */
  lemma PersonalIsHonest(history: seq<Resolution>, v: Val, req: Request, now: int, attempt: Attempt)
    requires |req.questions| == 1 && Known(history, v, req)
    requires attempt == Failed || (attempt == NotTried && now < v.validUntil)
    ensures Honest(history, Sent(req, Personal(req, v.reply), now, attempt))
  {
    var i :| 0 <= i < |history| && StemsFrom(v, req, history[i]);
    assert FromHistory(history[i], Sent(req, Personal(req, v.reply), now, attempt));
  }

  lemma BeginKeeps(s: State, call: nat, req: Request, now: int, dropped: bool, minLabels: int)
    requires Inv(s) && Enabled(s, Begin(call, req, now, dropped), minLabels)
    ensures Inv(Do(s, Begin(call, req, now, dropped), minLabels))
  {
    var found := Found(s, req);
    if found.Some? {
      FoundIsKnown(s, req);
      if now < found.value.validUntil {
        PersonalIsHonest(s.history, found.value, req, now, NotTried);
      }
    }
  }

  lemma FailKeeps(s: State, call: nat, now: int, minLabels: int)
    requires Inv(s) && call in s.calls
    ensures Inv(Do(s, Finish(call, None, now), minLabels))
  {
    var c := s.calls[call];
    if c.found.Some? {
      PersonalIsHonest(s.history, c.found.value, c.req, now, Failed);
    }
  }

  lemma SuccessKeeps(s: State, call: nat, reply: Reply, now: int, minLabels: int)
    requires Inv(s) && call in s.calls
    ensures Inv(Do(s, Finish(call, Some(reply), now), minLabels))
  {
    var c := s.calls[call];
    var h := Resolution(c.req, now, reply);
    var s' := Do(s, Finish(call, Some(reply), now), minLabels);
    forall k | k in s'.cache
      ensures exists i :: 0 <= i < |s'.history| && Holds(s'.cache, k, s'.history[i])
    {
      if k == KeyOf(c.req) {
        assert Holds(s'.cache, k, s'.history[|s.history|]);
      } else {
        var i :| 0 <= i < |s.history| && Holds(s.cache, k, s.history[i]);
        assert Holds(s'.cache, k, s'.history[i]);
      }
    }
    forall d | d in s'.calls && s'.calls[d].found.Some?
      ensures Known(s'.history, s'.calls[d].found.value, s'.calls[d].req)
    {
      HistoryGrows(s.history, h, s.calls[d].found.value, s.calls[d].req, Sent(c.req, reply, now, Succeeded));
    }
    forall k | 0 <= k < |s'.sent|
      ensures Honest(s'.history, s'.sent[k])
    {
      if k < |s.sent| {
        HistoryGrows(s.history, h, Val(0, reply), c.req, s.sent[k]);
      } else {
        assert h in s'.history;
      }
    }
  }

  lemma StepKeeps(s: State, a: Step, minLabels: int)
    requires Inv(s) && Enabled(s, a, minLabels)
    ensures Inv(Do(s, a, minLabels))
  {
    match a {
      case Begin(call, req, now, dropped) => BeginKeeps(s, call, req, now, dropped, minLabels);
      case Finish(call, result, now) =>
        match result {
          case None => FailKeeps(s, call, now, minLabels);
          case Some(reply) => SuccessKeeps(s, call, reply, now, minLabels);
        }
      case Evict(key) =>
        assert forall k :: k in s.cache - {key} ==> k in s.cache;
        forall k | k in (s.cache - {key})
          ensures exists i :: 0 <= i < |s.history| && Holds(s.cache - {key}, k, s.history[i])
        {
          var i :| 0 <= i < |s.history| && Holds(s.cache, k, s.history[i]);
          assert Holds(s.cache - {key}, k, s.history[i]);
        }
      case Purge =>
    }
  }

  ghost predicate Run(run: seq<State>, acts: seq<Step>, minLabels: int) {
    && |run| == |acts| + 1 && run[0] == Start
    && forall i :: 0 <= i < |acts| ==>
         Enabled(run[i], acts[i], minLabels) && run[i + 1] == Do(run[i], acts[i], minLabels)
  }

  lemma {:induction false} RunKeeps(run: seq<State>, acts: seq<Step>, minLabels: int, i: nat)
    requires Run(run, acts, minLabels) && i < |run|
    ensures Inv(run[i])
  {
    if i > 0 {
      RunKeeps(run, acts, minLabels, i - 1);
      StepKeeps(run[i - 1], acts[i - 1], minLabels);
    }
  }

  /** In every run with arbitrary eviction: a reply served from the cache carries the caller's id and question and
      the answers of an earlier resolution of the same query, and it is served past that one's lifetime
      only if the resolution just attempted has failed. */
  lemma CachedRepliesAreHonest(run: seq<State>, acts: seq<Step>, minLabels: int, i: nat, k: nat)
    requires Run(run, acts, minLabels) && i < |run| && k < |run[i].sent|
    requires run[i].sent[k].attempt != Succeeded
    ensures var x := run[i].sent[k];
            && x.reply.id == x.req.id && x.reply.questions == x.req.questions
            && exists j :: 0 <= j < |run[i].history| && FromHistory(run[i].history[j], x)
  {
    RunKeeps(run, acts, minLabels, i);
  }

  /** What is in the cache was resolved earlier for that very key, for a lifetime between a minute and a week. */
  lemma CacheIsHonest(run: seq<State>, acts: seq<Step>, minLabels: int, i: nat, req: Request) returns (h: Resolution)
    requires Run(run, acts, minLabels) && i < |run|
    requires |req.questions| == 1 && Found(run[i], req).Some?
    ensures h in run[i].history && SameQuery(h.req, req)
    ensures Found(run[i], req).value.reply == h.reply
    ensures MIN_TTL <= Found(run[i], req).value.validUntil - h.at <= MAX_TTL
  {
    RunKeeps(run, acts, minLabels, i);
    FoundIsKnown(run[i], req);
    var j :| 0 <= j < |run[i].history| && StemsFrom(Found(run[i], req).value, req, run[i].history[j]);
    h := run[i].history[j];
  }

  // ---------------------------------------------------------------- hits

  /** The step leaves what is cached under a key alone. */
  predicate Spares(s: State, a: Step, key: Key) {
    match a
    case Begin(_, _, _, _) => true
    case Finish(call, result, _) =>
      result.Some? && call in s.calls && |s.calls[call].req.questions| == 1 ==> KeyOf(s.calls[call].req) != key
    case Evict(k) => k != key
    case Purge => false
  }

  lemma {:induction false} StaysCached(run: seq<State>, acts: seq<Step>, minLabels: int, i: nat, j: nat, key: Key)
    requires Run(run, acts, minLabels) && i <= j <= |acts| && key in run[i].cache
    requires forall k :: i <= k < j ==> Spares(run[k], acts[k], key)
    ensures key in run[j].cache && run[j].cache[key] == run[i].cache[key]
  {
    if i < j {
      StaysCached(run, acts, minLabels, i, j - 1, key);
      assert run[j] == Do(run[j - 1], acts[j - 1], minLabels);
    }
  }

  /** A resolved reply serves every later request for the same query without another resolution, until its lifetime
      ends or it is evicted, purged or resolved anew. */
  lemma CacheHit(run: seq<State>, acts: seq<Step>, minLabels: int, i: nat, j: nat)
    requires Run(run, acts, minLabels) && i < j < |acts|
    requires acts[i].Finish? && acts[i].result.Some? && acts[j].Begin?
    requires acts[i].call in run[i].calls && SameQuery(run[i].calls[acts[i].call].req, acts[j].req)
    requires forall k :: i < k < j ==> Spares(run[k], acts[k], KeyOf(acts[j].req))
    requires acts[j].now < acts[i].now + MinTTL(acts[i].result.value)
    ensures run[j + 1] == run[j].(sent := run[j].sent +
              [Sent(acts[j].req, Reply(acts[j].req.id, acts[j].req.questions, acts[i].result.value.answers),
                    acts[j].now, NotTried)])
  {
    KeysMatchQueries(run[i].calls[acts[i].call].req, acts[j].req);
    assert run[i + 1] == Do(run[i], acts[i], minLabels);
    StaysCached(run, acts, minLabels, i + 1, j, KeyOf(acts[j].req));
    assert run[j + 1] == Do(run[j], acts[j], minLabels);
  }

  // ---------------------------------------------------------------- what comes of a request

  /** What is cached under a key is the reply of the last resolution for it, with its lifetime, and it has not been
      evicted or purged since. */
  lemma {:induction false} CachedSince(run: seq<State>, acts: seq<Step>, minLabels: int, j: nat, key: Key)
    returns (i: nat)
    requires Run(run, acts, minLabels) && j <= |acts| && key in run[j].cache
    ensures i < j && acts[i].Finish? && acts[i].result.Some? && acts[i].call in run[i].calls
    ensures |run[i].calls[acts[i].call].req.questions| == 1 && KeyOf(run[i].calls[acts[i].call].req) == key
    ensures run[j].cache[key] == Val(acts[i].now + MinTTL(acts[i].result.value), acts[i].result.value)
    ensures forall k :: i < k < j ==> Spares(run[k], acts[k], key)
  {
    var a := acts[j - 1];
    assert run[j] == Do(run[j - 1], a, minLabels);
    if a.Finish? && a.result.Some? && KeyOf(run[j - 1].calls[a.call].req) == key {
      i := j - 1;
    } else {
      i := CachedSince(run, acts, minLabels, j - 1, key);
    }
  }

  /** A request is answered at once exactly if a reply is cached and its lifetime is not over; otherwise it is resolved,
      exactly if the rate limiter lets it pass. */
  lemma BeginExact(run: seq<State>, acts: seq<Step>, minLabels: int, j: nat)
    requires Run(run, acts, minLabels) && j < |acts| && acts[j].Begin?
    ensures |acts[j].req.questions| == 1 && acts[j].call !in run[j].calls
    ensures var req, key := acts[j].req, KeyOf(acts[j].req);
            var valid := key in run[j].cache && acts[j].now < run[j].cache[key].validUntil;
            && run[j + 1].sent == run[j].sent +
                 (if !valid then []
                  else
                    var reply := Reply(req.id, req.questions, run[j].cache[key].reply.answers);
                    [Sent(req, reply, acts[j].now, NotTried)])
            && (acts[j].call in run[j + 1].calls <==> !valid && !acts[j].dropped)
  {
    assert run[j + 1] == Do(run[j], acts[j], minLabels);
    assert run[j].sent + [] == run[j].sent;
  }

  lemma {:induction false} CallStays(run: seq<State>, acts: seq<Step>, minLabels: int, j: nat, f: nat, call: nat)
    requires Run(run, acts, minLabels) && j <= f <= |acts| && call in run[j].calls
    requires forall k :: j <= k < f ==> !(acts[k].Finish? && acts[k].call == call)
    ensures call in run[f].calls && run[f].calls[call] == run[j].calls[call]
  {
    if j < f {
      CallStays(run, acts, minLabels, j, f - 1, call);
      assert run[f] == Do(run[f - 1], acts[f - 1], minLabels);
    }
  }

  /** The end of a resolution: its reply goes out; if it has failed, what was cached when the request came in, expired
      or not, under the caller's id and question; and nothing if nothing was cached then. */
  lemma FinishExact(run: seq<State>, acts: seq<Step>, minLabels: int, j: nat, f: nat)
    requires Run(run, acts, minLabels) && j < f < |acts| && acts[j].Begin? && acts[f].Finish?
    requires acts[f].call == acts[j].call && acts[j].call in run[j + 1].calls
    requires forall k :: j < k < f ==> !(acts[k].Finish? && acts[k].call == acts[j].call)
    ensures |acts[j].req.questions| == 1
    ensures var req, key := acts[j].req, KeyOf(acts[j].req);
            run[f + 1].sent == run[f].sent +
              match acts[f].result
              case Some(reply) => [Sent(req, reply, acts[f].now, Succeeded)]
              case None =>
                if key !in run[j].cache then []
                else [Sent(req, Reply(req.id, req.questions, run[j].cache[key].reply.answers), acts[f].now, Failed)]
  {
    BeginExact(run, acts, minLabels, j);
    assert run[j + 1] == Do(run[j], acts[j], minLabels);
    CallStays(run, acts, minLabels, j + 1, f, acts[j].call);
    assert run[f + 1] == Do(run[f], acts[f], minLabels);
    assert run[f].sent + [] == run[f].sent;
  }
}
