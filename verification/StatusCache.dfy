/** The cache in front of the public status query, with the requests that share one query
    (sentinel-api/src/status/public-status.service.ts, getPublicStatus).

    An `async` method runs without interruption up to its `await`: a call is one step, the query
    settles some time later, and the caller that started it resumes in a step of its own. */
module StatusCache {
  import opened Schema
  import PublicStatus

  type Rows = map<nat, PublicStatus.Line>

  datatype Cached = Cached(rows: Rows, expiresAt: real)

  /** The two fields of the service; queries are numbered in the order they start. */
  datatype Fields = Fields(cached: Option<Cached>, inFlight: Option<nat>)

  /** A caller has its rows at once, or shares the promise of a query. */
  datatype Reply = Given(rows: Rows) | Promised(query: nat)

  // ----- The service -----

  function Enter(f: Fields, now: real, number: nat): (Fields, Reply) {
    if f.cached.Some? && now < f.cached.value.expiresAt then (f, Given(f.cached.value.rows))
    else if f.inFlight.Some? then (f, Promised(f.inFlight.value))
    else (f.(inFlight := Some(number)), Promised(number))
  }

  function Leave(f: Fields, result: Option<Rows>, now: real, ttl: real): Fields {
    Fields(if result.Some? then Some(Cached(result.value, now + ttl)) else f.cached, None)
  }

  class Service {
    var cached: Option<Cached>
    var inFlight: Option<nat>
    const ttl: real

    constructor (ttl: real)
      ensures this.ttl == ttl && View() == Fields(None, None)
    {
      this.ttl := ttl;
      cached, inFlight := None, None;
    }

    ghost function View(): Fields reads this { Fields(cached, inFlight) }

    /** Up to the await; `number` is that of the query this call would start. */
    method GetPublicStatus(now: real, number: nat) returns (reply: Reply)
      modifies this
      ensures (View(), reply) == Enter(old(View()), now, number)
    {
      if cached.Some? && now < cached.value.expiresAt { return Given(cached.value.rows); }
      if inFlight.Some? { return Promised(inFlight.value); }
      inFlight := Some(number);
      reply := Promised(number);
    }

    /** After the await, in the caller that started the query; the `finally` runs either way. */
    method Resume(result: Option<Rows>, now: real)
      modifies this
      ensures View() == Leave(old(View()), result, now, ttl)
    {
      if result.Some? {
        cached := Some(Cached(result.value, now + ttl));
      }
      inFlight := None;
    }
  }

  // ----- Every interleaving -----

  /** A query with what it settled to, and when its caller resumed. */
  datatype Query = Query(startedAt: real, result: Option<Option<Rows>>, endedAt: Option<real>)

  datatype Answer = Answer(at: real, reply: Reply)

  datatype System = System(fields: Fields, queries: seq<Query>, answers: seq<Answer>, now: real)

  datatype Event = Call(at: real) | Settle(query: nat, result: Option<Rows>) | Resume(at: real)

  predicate Possible(s: System, e: Event) {
    match e
    case Call(at) => s.now <= at
    case Settle(q, _) => q < |s.queries| && s.queries[q].result.None?
    case Resume(at) =>
      && s.now <= at && s.fields.inFlight.Some? && s.fields.inFlight.value < |s.queries|
      && s.queries[s.fields.inFlight.value].result.Some?
  }

  function Step(s: System, e: Event, ttl: real): System
    requires Possible(s, e)
  {
    match e
    case Call(at) =>
      var (fields, reply) := Enter(s.fields, at, |s.queries|);
      System(fields, if fields != s.fields then s.queries + [Query(at, None, None)] else s.queries,
             s.answers + [Answer(at, reply)], at)
    case Settle(q, result) => s.(queries := s.queries[q := s.queries[q].(result := Some(result))])
    case Resume(at) =>
      var q := s.fields.inFlight.value;
      System(Leave(s.fields, s.queries[q].result.value, at, ttl),
             s.queries[q := s.queries[q].(endedAt := Some(at))], s.answers, at)
  }

  ghost predicate Reaches(start: real, ttl: real, events: seq<Event>, s: System)
    decreases |events|, 1
  {
    if events == [] then s == System(Fields(None, None), [], [], start)
    else exists before :: Leads(start, ttl, events, before, s)
  }

  ghost predicate Leads(start: real, ttl: real, events: seq<Event>, before: System, s: System)
    requires events != []
    decreases |events|, 0
  {
    var e := events[|events| - 1];
    Reaches(start, ttl, events[..|events| - 1], before) && Possible(before, e) && s == Step(before, e, ttl)
  }

  /** The service driven by the events, up to the first that is impossible: its fields are those
      of the machine, whose runs are analysed below. */
  method Drive(service: Service, start: real, events: seq<Event>) returns (s: System, done: nat)
    requires service.View() == Fields(None, None)
    modifies service
    ensures done <= |events| && Reaches(start, service.ttl, events[..done], s) && service.View() == s.fields
    ensures done < |events| ==> !Possible(s, events[done])
  {
    s, done := System(Fields(None, None), [], [], start), 0;
    while done < |events| && Possible(s, events[done])
      invariant done <= |events| && Reaches(start, service.ttl, events[..done], s) && service.View() == s.fields
      decreases |events| - done
    {
      ghost var before := s;
      match events[done] {
        case Call(at) =>
          var idle := service.inFlight.None?;
          var reply := service.GetPublicStatus(at, |s.queries|);
          var started := idle && service.inFlight.Some?;
          s := System(Fields(service.cached, service.inFlight),
                      if started then s.queries + [Query(at, None, None)] else s.queries,
                      s.answers + [Answer(at, reply)], at);
        case Settle(q, result) =>
          s := s.(queries := s.queries[q := s.queries[q].(result := Some(result))]);
        case Resume(at) =>
          var q := s.fields.inFlight.value;
          service.Resume(s.queries[q].result.value, at);
          s := System(Fields(service.cached, service.inFlight),
                      s.queries[q := s.queries[q].(endedAt := Some(at))], s.answers, at);
      }
      assert s == Step(before, events[done], service.ttl);
      assert events[..done + 1][..done] == events[..done];
      assert Leads(start, service.ttl, events[..done + 1], before, s);
      done := done + 1;
    }
  }

  // ----- What holds throughout -----

  /** The query ended at a time at which its rows were published. */
  predicate Succeeded(q: Query) { q.endedAt.Some? && q.result.Some? && q.result.value.Some? }

  /** At most one query is under way, the last one: all others have ended. */
  ghost predicate SingleFlight(s: System) {
    && (s.fields.inFlight.Some? ==> s.fields.inFlight.value + 1 == |s.queries|)
    && (forall q :: 0 <= q < |s.queries| ==> (s.queries[q].endedAt.None? <==> s.fields.inFlight == Some(q)))
    && (forall q :: 0 <= q < |s.queries| && s.queries[q].endedAt.Some? ==> s.queries[q].result.Some?)
    && (forall q :: 0 <= q < |s.queries| ==> s.queries[q].startedAt <= s.now)
    && (forall q :: 0 <= q < |s.queries| && s.queries[q].endedAt.Some? ==>
          s.queries[q].startedAt <= s.queries[q].endedAt.value <= s.now)
  }

  /** No query starts before an earlier one has ended, nor within `ttl` of an earlier success. */
  ghost predicate Spaced(queries: seq<Query>, ttl: real) {
    forall p, q :: 0 <= p < q < |queries| && queries[p].endedAt.Some? ==>
      queries[p].endedAt.value + (if Succeeded(queries[p]) then ttl else 0.0) <= queries[q].startedAt
  }

  /** The cache holds the rows of the last success; failures leave no trace in it. */
  ghost predicate CacheIsLastSuccess(s: System, ttl: real) {
    && (s.fields.cached.None? ==> forall q :: 0 <= q < |s.queries| ==> !Succeeded(s.queries[q]))
    && (s.fields.cached.Some? ==> exists q :: 0 <= q < |s.queries| && IsLastSuccess(s, q, ttl))
  }

  ghost predicate IsLastSuccess(s: System, q: int, ttl: real)
    requires 0 <= q < |s.queries| && s.fields.cached.Some?
  {
    && Succeeded(s.queries[q])
    && s.fields.cached.value == Cached(s.queries[q].result.value.value, s.queries[q].endedAt.value + ttl)
    && forall p :: q < p < |s.queries| ==> !Succeeded(s.queries[p])
  }

  /** Given rows are those of a query that succeeded less than `ttl` before; a promise is that of
      a query under way at the time. */
  ghost predicate AnswerIsGood(a: Answer, queries: seq<Query>, ttl: real) {
    match a.reply
    case Given(rows) => exists q :: 0 <= q < |queries| && GaveRows(queries[q], rows, a.at, ttl)
    case Promised(q) =>
      && q < |queries| && queries[q].startedAt <= a.at
      && (queries[q].endedAt.Some? ==> a.at <= queries[q].endedAt.value)
  }

  ghost predicate GaveRows(q: Query, rows: Rows, at: real, ttl: real) {
    Succeeded(q) && q.result.value.value == rows && q.endedAt.value <= at < q.endedAt.value + ttl
  }

  ghost predicate AnswersAreGood(s: System, ttl: real) {
    forall i :: 0 <= i < |s.answers| ==> AnswerIsGood(s.answers[i], s.queries, ttl) && s.answers[i].at <= s.now
  }

  /** Ended queries never change again. */
  ghost predicate Extends(queries: seq<Query>, queries': seq<Query>) {
    && |queries| <= |queries'|
    && forall q :: 0 <= q < |queries| ==>
        && queries'[q].startedAt == queries[q].startedAt
        && (queries[q].endedAt.Some? ==> queries'[q] == queries[q])
  }

  lemma StepExtends(s: System, e: Event, ttl: real)
    requires SingleFlight(s) && Possible(s, e)
    ensures SingleFlight(Step(s, e, ttl)) && Extends(s.queries, Step(s, e, ttl).queries)
  {
  }

  lemma StepSpaced(s: System, e: Event, ttl: real)
    requires ttl > 0.0 && SingleFlight(s) && Possible(s, e) && Spaced(s.queries, ttl) && CacheIsLastSuccess(s, ttl)
    ensures Spaced(Step(s, e, ttl).queries, ttl)
  {
    var queries := s.queries;
    var s' := Step(s, e, ttl);
    if e.Call? && s'.queries != queries {
      forall p | 0 <= p < |queries| && Succeeded(queries[p])
        ensures queries[p].endedAt.value + ttl <= e.at
      {
        var q :| 0 <= q < |queries| && IsLastSuccess(s, q, ttl);
        assert p < q ==> queries[p].endedAt.value + ttl <= queries[q].startedAt;
      }
    }
  }

  lemma StepCaches(s: System, e: Event, ttl: real)
    requires SingleFlight(s) && Possible(s, e) && CacheIsLastSuccess(s, ttl)
    ensures CacheIsLastSuccess(Step(s, e, ttl), ttl)
  {
    var s' := Step(s, e, ttl);
    if e.Resume? && s.queries[s.fields.inFlight.value].result.value.Some? {
      assert IsLastSuccess(s', s.fields.inFlight.value, ttl);
    } else if s.fields.cached.Some? {
      var q :| 0 <= q < |s.queries| && IsLastSuccess(s, q, ttl);
      assert IsLastSuccess(s', q, ttl);
    }
  }

  lemma GoodAnswersStay(s: System, e: Event, ttl: real, a: Answer)
    requires SingleFlight(s) && Possible(s, e) && AnswerIsGood(a, s.queries, ttl) && a.at <= s.now
    ensures AnswerIsGood(a, Step(s, e, ttl).queries, ttl)
  {
    StepExtends(s, e, ttl);
    if a.reply.Given? {
      var q :| 0 <= q < |s.queries| && GaveRows(s.queries[q], a.reply.rows, a.at, ttl);
      assert GaveRows(Step(s, e, ttl).queries[q], a.reply.rows, a.at, ttl);
    }
  }

  lemma NewAnswerIsGood(s: System, at: real, ttl: real)
    requires SingleFlight(s) && s.now <= at && CacheIsLastSuccess(s, ttl)
    ensures AnswerIsGood(Answer(at, Enter(s.fields, at, |s.queries|).1), Step(s, Call(at), ttl).queries, ttl)
  {
    if s.fields.cached.Some? && at < s.fields.cached.value.expiresAt {
      var q :| 0 <= q < |s.queries| && IsLastSuccess(s, q, ttl);
      assert GaveRows(s.queries[q], s.fields.cached.value.rows, at, ttl);
    }
  }

  lemma StepAnswers(s: System, e: Event, ttl: real)
    requires SingleFlight(s) && Possible(s, e) && CacheIsLastSuccess(s, ttl) && AnswersAreGood(s, ttl)
    ensures AnswersAreGood(Step(s, e, ttl), ttl)
  {
    var s' := Step(s, e, ttl);
    forall i | 0 <= i < |s'.answers|
      ensures AnswerIsGood(s'.answers[i], s'.queries, ttl) && s'.answers[i].at <= s'.now
    {
      if i < |s.answers| {
        GoodAnswersStay(s, e, ttl, s.answers[i]);
      } else {
        NewAnswerIsGood(s, e.at, ttl);
      }
    }
  }

  /** Over every interleaving of calls, completions, failures and the passing of time. */
  lemma {:induction false} CacheInvariant(start: real, ttl: real, events: seq<Event>, s: System)
    requires ttl > 0.0 && Reaches(start, ttl, events, s)
    ensures SingleFlight(s) && Spaced(s.queries, ttl) && CacheIsLastSuccess(s, ttl) && AnswersAreGood(s, ttl)
  {
    if events != [] {
      var before :| Leads(start, ttl, events, before, s);
      var e := events[|events| - 1];
      CacheInvariant(start, ttl, events[..|events| - 1], before);
      StepExtends(before, e, ttl);
      StepSpaced(before, e, ttl);
      StepCaches(before, e, ttl);
      StepAnswers(before, e, ttl);
    }
  }

  /** A failed query ends with the cache as it was, and the next call may start a new one. */
  lemma FailureKeepsCache(start: real, ttl: real, events: seq<Event>, s: System, at: real)
    requires ttl > 0.0 && Reaches(start, ttl, events, s) && Possible(s, Resume(at))
    requires s.queries[s.fields.inFlight.value].result.value.None?
    ensures var s' := Step(s, Resume(at), ttl);
      && s'.fields == Fields(s.fields.cached, None)
      && Possible(s', Call(at))
      && Step(s', Call(at), ttl).fields.inFlight == Some(|s.queries|)
  {
    CacheInvariant(start, ttl, events, s);
    if s.fields.cached.Some? {
      var q :| 0 <= q < |s.queries| && IsLastSuccess(s, q, ttl);
      assert q < s.fields.inFlight.value;
      assert Spaced(s.queries, ttl) && s.queries[q].endedAt.Some?;
    }
  }
}
