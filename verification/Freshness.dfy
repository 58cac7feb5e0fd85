/** In every interleaved run, over any network: where each record of an answer or of a cached list
    comes from, and how old it can be. */
module Freshness {
  import opened Options
  import opened Records
  import opened CacheCodec
  import opened Resolver
  import opened ResolverRuns
  import opened ListShape

  /** The aliases that are followed can be stored. */
  ghost predicate AliasesPack(env: Env) {
    forall k, e {:trigger env.net(k, e)} ::
      var c := FirstCname(AnswerOf(env.net(k, e)));
      c.Some? ==> Packs(env.codec, c.value)
  }

  /** The record is one the resolver takes from an answer: its first CNAME, or any record of an
      answer without CNAMEs. */
  predicate TakenFrom(answer: seq<RR>, rr: RR) {
    if rr.data.Cname? then FirstCname(answer) == Some(rr) else FirstCname(answer).None? && rr in answer
  }

  /** The record was taken from the answer to an exchange about this name and type, not before
      `since`. */
  ghost predicate FetchedFor(env: Env, wire: seq<Exchange>, name: string, qtype: uint16, rr: RR, since: int) {
    exists k :: 0 <= k < |wire| && wire[k].time >= since && wire[k].name == name && wire[k].qtype == qtype &&
                TakenFrom(AnswerOf(env.net(k, wire[k])), rr)
  }

  /** An answer list for a name: CNAMEs, each fetched for the name the one before leads to, then
      records of other types fetched for the last name. Each alias may add `lag` seconds of age. */
  ghost predicate Aged(env: Env, wire: seq<Exchange>, lag: nat, name: string, qtype: uint16, rrs: seq<RR>, since: int)
    decreases |rrs|
  {
    if rrs == [] then true
    else if rrs[0].data.Cname? then
      FetchedFor(env, wire, name, qtype, rrs[0], since) &&
      Aged(env, wire, lag, Target(rrs[0]), qtype, rrs[1..], since - lag)
    else
      forall i :: 0 <= i < |rrs| ==> !rrs[i].data.Cname? && FetchedFor(env, wire, name, qtype, rrs[i], since)
  }

  ghost predicate EntryAged(env: Env, sh: Shared, lag: nat, name: string, qtype: uint16, e: Entry) {
    e.expire <= sh.now + 3600 && Aged(env, sh.wire, lag, name, qtype, e.rrs, e.expire - lag)
  }

  ghost predicate CacheAged(env: Env, sh: Shared, lag: nat) {
    forall n, q {:trigger CacheKey(n, q)} :: CacheKey(n, q) in sh.cache ==>
      EntryAged(env, sh, lag, n, q, sh.cache[CacheKey(n, q)])
  }

  /** The aliases a request has followed were fetched by the request itself. */
  ghost predicate ChainFetched(env: Env, wire: seq<Exchange>, name: string, qtype: uint16, chain: seq<RR>, since: int) {
    chain != [] ==>
      chain[0].data.Cname? && FetchedFor(env, wire, Reached(name, chain[1..]), qtype, chain[0], since) &&
      ChainFetched(env, wire, name, qtype, chain[1..], since)
  }

  ghost predicate TaskAged(env: Env, sh: Shared, limit: nat, t: Task) {
    t.start <= sh.now <= t.start + limit &&
    ChainFetched(env, sh.wire, t.name, t.qtype, t.chain, t.start) &&
    (t.phase.Returning? ==>
       Aged(env, sh.wire, 3600 + limit, Current(t), t.qtype, t.phase.answers, t.start - (3600 + limit)))
  }

  ghost predicate StateAged(env: Env, limit: nat, s: State) {
    CacheAged(env, s.sh, 3600 + limit) && forall id :: id in s.tasks ==> TaskAged(env, s.sh, limit, s.tasks[id])
  }

  /** Time passes and exchanges are added; neither undoes where a record came from. */
  predicate Later(sh: Shared, sh': Shared) {
    sh.wire <= sh'.wire && sh.now <= sh'.now
  }

  lemma FetchedStays(env: Env, w: seq<Exchange>, w': seq<Exchange>, name: string, qtype: uint16, rr: RR, since: int,
      before: int)
    requires w <= w' && before <= since && FetchedFor(env, w, name, qtype, rr, since)
    ensures FetchedFor(env, w', name, qtype, rr, before)
  {
    var k :| 0 <= k < |w| && w[k].time >= since && w[k].name == name && w[k].qtype == qtype &&
        TakenFrom(AnswerOf(env.net(k, w[k])), rr);
    assert w'[k] == w[k];
  }

  lemma {:induction false} AgedStays(env: Env, w: seq<Exchange>, w': seq<Exchange>, lag: nat, name: string,
      qtype: uint16, rrs: seq<RR>, since: int, before: int)
    requires w <= w' && before <= since && Aged(env, w, lag, name, qtype, rrs, since)
    ensures Aged(env, w', lag, name, qtype, rrs, before)
    decreases |rrs|
  {
    hide FetchedFor;
    if rrs != [] && rrs[0].data.Cname? {
      FetchedStays(env, w, w', name, qtype, rrs[0], since, before);
      AgedStays(env, w, w', lag, Target(rrs[0]), qtype, rrs[1..], since - lag, before - lag);
    } else {
      forall i | 0 <= i < |rrs|
        ensures FetchedFor(env, w', name, qtype, rrs[i], before)
      {
        FetchedStays(env, w, w', name, qtype, rrs[i], since, before);
      }
    }
  }

  lemma {:induction false} ChainStays(env: Env, w: seq<Exchange>, w': seq<Exchange>, name: string, qtype: uint16,
      chain: seq<RR>, since: int)
    requires w <= w' && ChainFetched(env, w, name, qtype, chain, since)
    ensures ChainFetched(env, w', name, qtype, chain, since)
  {
    hide FetchedFor;
    if chain != [] {
      FetchedStays(env, w, w', Reached(name, chain[1..]), qtype, chain[0], since, since);
      ChainStays(env, w, w', name, qtype, chain[1..], since);
    }
  }

  /** What can be packed of an aged list is aged. */
  lemma {:induction false} AgedKept(env: Env, w: seq<Exchange>, lag: nat, name: string, qtype: uint16, rrs: seq<RR>,
      since: int)
    requires AliasesPack(env) && Aged(env, w, lag, name, qtype, rrs, since)
    ensures Aged(env, w, lag, name, qtype, Kept(env.codec, rrs), since)
    decreases |rrs|
  {
    hide Packs, Kept, FetchedFor;
    KeptAmong(env.codec, rrs);
    if rrs != [] && rrs[0].data.Cname? {
      AliasPacks(env, w, name, qtype, rrs[0], since);
      AgedKept(env, w, lag, Target(rrs[0]), qtype, rrs[1..], since - lag);
      assert rrs == [rrs[0]] + rrs[1..];
      KeptConcat(env.codec, [rrs[0]], rrs[1..]);
      KeptOne(env.codec, rrs[0]);
      assert Kept(env.codec, rrs)[1..] == Kept(env.codec, rrs[1..]);
    } else if rrs == [] {
      KeptNone(env.codec);
    } else {
      var kept := Kept(env.codec, rrs);
      forall i | 0 <= i < |kept|
        ensures !kept[i].data.Cname? && FetchedFor(env, w, name, qtype, kept[i], since)
      {
        assert kept[i] in rrs;
      }
    }
  }

  lemma AliasPacks(env: Env, w: seq<Exchange>, name: string, qtype: uint16, rr: RR, since: int)
    requires AliasesPack(env) && rr.data.Cname? && FetchedFor(env, w, name, qtype, rr, since)
    ensures Packs(env.codec, rr)
  {
    hide Packs;
    var k :| 0 <= k < |w| && w[k].time >= since && w[k].name == name && w[k].qtype == qtype &&
        TakenFrom(AnswerOf(env.net(k, w[k])), rr);
    assert FirstCname(AnswerOf(env.net(k, w[k]))) == Some(rr);
  }

  lemma {:induction false} CacheStays(env: Env, sh: Shared, sh': Shared, lag: nat)
    requires CacheAged(env, sh, lag) && Later(sh, sh')
    requires forall k :: k in sh'.cache ==> k in sh.cache && sh'.cache[k] == sh.cache[k]
    ensures CacheAged(env, sh', lag)
  {
    hide CacheKey, Aged;
    forall n, q | CacheKey(n, q) in sh'.cache
      ensures EntryAged(env, sh', lag, n, q, sh'.cache[CacheKey(n, q)])
    {
      var e := sh.cache[CacheKey(n, q)];
      AgedStays(env, sh.wire, sh'.wire, lag, n, q, e.rrs, e.expire - lag, e.expire - lag);
    }
  }

  lemma {:induction false} TaskStays(env: Env, sh: Shared, sh': Shared, limit: nat, t: Task)
    requires TaskAged(env, sh, limit, t) && Later(sh, sh') && sh'.now <= t.start + limit
    ensures TaskAged(env, sh', limit, t)
  {
    hide Aged, ChainFetched;
    ChainStays(env, sh.wire, sh'.wire, t.name, t.qtype, t.chain, t.start);
    if t.phase.Returning? {
      var since := t.start - (3600 + limit);
      AgedStays(env, sh.wire, sh'.wire, 3600 + limit, Current(t), t.qtype, t.phase.answers, since, since);
    }
  }

  /** Storing a list that was fetched within the current request keeps the cache aged. */
  lemma {:induction false} PutStays(env: Env, sh: Shared, limit: nat, name: string, qtype: uint16, rrs: seq<RR>,
      ttl: uint32, start: nat)
    requires AliasesPack(env) && CacheAged(env, sh, 3600 + limit) && ttl <= 3600
    requires sh.now <= start + limit && Aged(env, sh.wire, 3600 + limit, name, qtype, rrs, start)
    ensures var cache := Put(env.codec, sh.cache, CacheKey(name, qtype), rrs, ttl, sh.now);
            CacheAged(env, sh.(cache := cache), 3600 + limit)
  {
    hide CacheKey, Aged, Kept, AliasesPack;
    var lag := 3600 + limit;
    var sh' := sh.(cache := Put(env.codec, sh.cache, CacheKey(name, qtype), rrs, ttl, sh.now));
    AgedKept(env, sh.wire, lag, name, qtype, rrs, start);
    AgedStays(env, sh.wire, sh.wire, lag, name, qtype, Kept(env.codec, rrs), start, sh.now + ttl - lag);
    forall n, q | CacheKey(n, q) in sh'.cache
      ensures EntryAged(env, sh', lag, n, q, sh'.cache[CacheKey(n, q)])
    {
      if CacheKey(n, q) == CacheKey(name, qtype) {
        CacheKeyInjective(n, q, name, qtype);
      }
    }
  }

  lemma {:induction false} ResponseStays(env: Env, sh: Shared, limit: nat, name: string, qtype: uint16, rrs: seq<RR>,
      start: nat)
    requires AliasesPack(env) && CacheAged(env, sh, 3600 + limit)
    requires sh.now <= start + limit && Aged(env, sh.wire, 3600 + limit, name, qtype, rrs, start)
    ensures CacheAged(env, CacheResponse(env, sh, name, qtype, rrs), 3600 + limit)
  {
    hide CacheKey, Put, Aged, NormalizeTtl, MinTtl, AliasesPack, CacheAged;
    if rrs != [] {
      PutStays(env, sh, limit, name, qtype, rrs, NormalizeTtl(MinTtl(rrs)), start);
    }
  }

  lemma {:induction false} ReceiveAged(env: Env, sh: Shared, limit: nat, t: Task, k: nat)
    requires AliasesPack(env) && CacheAged(env, sh, 3600 + limit) && TaskAged(env, sh, limit, t)
    requires k < |sh.wire| && sh.wire[k] == Exchange(sh.now, sh.wire[k].server, Current(t), t.qtype)
    requires env.net(k, sh.wire[k]).Reply?
    ensures var (sh', t') := Receive(env, sh, t, env.net(k, sh.wire[k]));
            CacheAged(env, sh', 3600 + limit) && TaskAged(env, sh', limit, t')
  {
    hide CacheKey, Put, NormalizeTtl, MinTtl, NegativeTtl, CacheAged, AliasesPack;
    var reply := env.net(k, sh.wire[k]);
    var name := Current(t);
    assert forall rr :: TakenFrom(reply.answer, rr) ==> FetchedFor(env, sh.wire, name, t.qtype, rr, t.start);
    if reply.rcode == NX_DOMAIN {
      PutStays(env, sh, limit, name, t.qtype, [], NormalizeTtl(NegativeTtl(env.timeout, reply.authority)), t.start);
    } else if FirstCname(reply.answer).None? {
      FirstCnameExact(reply.answer);
      ResponseStays(env, sh, limit, name, t.qtype, reply.answer, t.start);
      AgedStays(env, sh.wire, sh.wire, 3600 + limit, name, t.qtype, reply.answer, t.start, t.start - (3600 + limit));
    } else {
      SomeCname(reply.answer);
      var chain := [FirstCname(reply.answer).value] + t.chain;
      assert chain[1..] == t.chain;
    }
  }

  lemma {:induction false} AdvanceAged(env: Env, sh: Shared, limit: nat, t: Task)
    requires AliasesPack(env) && CacheAged(env, sh, 3600 + limit) && TaskAged(env, sh, limit, t)
    ensures var (sh', t') := Advance(env, sh, t);
            CacheAged(env, sh', 3600 + limit) && TaskAged(env, sh', limit, t') && Later(sh, sh') && sh'.now == sh.now
  {
    hide CacheKey, Put, NormalizeTtl, MinTtl, NegativeTtl, AliasesPack, Receive, FetchedFor, CacheAged;
    match t.phase
    case LookingUp =>
      LookupAged(env, sh, limit, t);
    case Asking(i) =>
      if i < |env.servers| {
        var e := Exchange(sh.now, env.servers[i], Current(t), t.qtype);
        var sh' := sh.(wire := sh.wire + [e]);
        CacheStays(env, sh, sh', 3600 + limit);
        TaskStays(env, sh, sh', limit, t);
        var reply := env.net(|sh.wire|, e);
        if Usable(reply) {
          ReceiveAged(env, sh', limit, t, |sh.wire|);
          ReceiveLater(env, sh', t, reply);
        }
      }
    case Returning(answers, rcode) =>
      if t.chain != [] {
        var longer := [t.chain[0]] + answers;
        var name := Reached(t.name, t.chain[1..]);
        assert longer[1..] == answers;
        assert Aged(env, sh.wire, 3600 + limit, name, t.qtype, longer, t.start);
        AgedStays(env, sh.wire, sh.wire, 3600 + limit, name, t.qtype, longer, t.start, t.start - (3600 + limit));
        ResponseStays(env, sh, limit, name, t.qtype, longer, t.start);
      }
  }

  lemma ReceiveLater(env: Env, sh: Shared, t: Task, reply: Reply)
    requires reply.Reply?
    ensures Receive(env, sh, t, reply).0.wire == sh.wire && Receive(env, sh, t, reply).0.now == sh.now
  {
    hide CacheKey, Put, NormalizeTtl, MinTtl, NegativeTtl;
  }

  lemma {:induction false} LookupAged(env: Env, sh: Shared, limit: nat, t: Task)
    requires t.phase == LookingUp && CacheAged(env, sh, 3600 + limit) && TaskAged(env, sh, limit, t)
    ensures var (sh', t') := Advance(env, sh, t);
            CacheAged(env, sh', 3600 + limit) && TaskAged(env, sh', limit, t') && Later(sh, sh') && sh'.now == sh.now
  {
    hide CacheKey, Aged, ChainFetched;
    if |t.chain| > MAX_DEPTH {
      AgedEmpty(env, sh.wire, 3600 + limit, Current(t), t.qtype, t.start - (3600 + limit));
    } else {
      var key := CacheKey(Current(t), t.qtype);
      CacheStays(env, sh, sh.(cache := Purge(sh.cache, key, sh.now)), 3600 + limit);
      if Lookup(sh.cache, key, sh.now).Some? {
        var e := sh.cache[key];
        assert EntryAged(env, sh, 3600 + limit, Current(t), t.qtype, e);
        AgedStays(env, sh.wire, sh.wire, 3600 + limit, Current(t), t.qtype, e.rrs, e.expire - (3600 + limit),
            t.start - (3600 + limit));
      }
    }
  }

  lemma AgedEmpty(env: Env, w: seq<Exchange>, lag: nat, name: string, qtype: uint16, since: int)
    ensures Aged(env, w, lag, name, qtype, [], since)
  {
  }

  lemma {:induction false} NextAged(env: Env, limit: nat, s: State, ev: Event)
    requires AliasesPack(env) && StateAged(env, limit, s)
    ensures StateAged(env, limit, Next(env, limit, s, ev))
  {
    hide CacheAged, TaskAged, Advance, AliasesPack;
    var s' := Next(env, limit, s, ev);
    match ev
    case Elapse(d) =>
      CacheStays(env, s.sh, s'.sh, 3600 + limit);
      forall id | id in s'.tasks
        ensures TaskAged(env, s'.sh, limit, s'.tasks[id])
      {
        TaskStarted(env, s.sh, limit, s.tasks[id]);
        TaskStays(env, s.sh, s'.sh, limit, s.tasks[id]);
      }
    case Evict(key) =>
      CacheStays(env, s.sh, s'.sh, 3600 + limit);
      forall id | id in s'.tasks
        ensures TaskAged(env, s'.sh, limit, s'.tasks[id])
      {
        TaskStarted(env, s.sh, limit, s.tasks[id]);
        TaskStays(env, s.sh, s'.sh, limit, s.tasks[id]);
      }
    case Begin(id, name, qtype) =>
      NewTaskAged(env, s.sh, limit, name, qtype);
    case Step(id) =>
      if id in s.tasks {
        AdvanceAged(env, s.sh, limit, s.tasks[id]);
        forall j | j in s.tasks && j != id
          ensures TaskAged(env, s'.sh, limit, s.tasks[j])
        {
          TaskStarted(env, s.sh, limit, s.tasks[j]);
          TaskStays(env, s.sh, s'.sh, limit, s.tasks[j]);
        }
      }
    case Finish(id) =>
  }

  lemma TaskStarted(env: Env, sh: Shared, limit: nat, t: Task)
    requires TaskAged(env, sh, limit, t)
    ensures t.start <= sh.now <= t.start + limit
  {
  }

  lemma NewTaskAged(env: Env, sh: Shared, limit: nat, name: string, qtype: uint16)
    ensures TaskAged(env, sh, limit, Task(name, qtype, sh.now, [], LookingUp))
  {
  }

  lemma {:induction false} RunAged(env: Env, limit: nat, evs: seq<Event>)
    requires AliasesPack(env)
    ensures StateAged(env, limit, Run(env, limit, IDLE, evs))
  {
    hide AliasesPack;
    if evs == [] {
      assert CacheAged(env, IDLE.sh, 3600 + limit);
    } else {
      RunAged(env, limit, evs[..|evs| - 1]);
      NextAged(env, limit, Run(env, limit, IDLE, evs[..|evs| - 1]), evs[|evs| - 1]);
    }
  }

  // What this means record by record.

  /** How many CNAMEs come before position i. */
  function Hops(rrs: seq<RR>, i: nat): nat
    requires i <= |rrs|
  {
    if i == 0 then 0 else Hops(rrs, i - 1) + if rrs[i - 1].data.Cname? then 1 else 0
  }

  lemma {:induction false} HopsTail(rrs: seq<RR>, i: nat)
    requires 0 < i <= |rrs|
    ensures Hops(rrs, i) == Hops(rrs[1..], i - 1) + if rrs[0].data.Cname? then 1 else 0
  {
    if i > 1 {
      HopsTail(rrs, i - 1);
    } else {
      assert Hops(rrs, 0) == 0;
    }
  }

  lemma ZeroHops(rrs: seq<RR>)
    ensures Hops(rrs, 0) == 0
  {
  }

  lemma {:induction false} NoHops(rrs: seq<RR>, i: nat)
    requires i <= |rrs| && forall j :: 0 <= j < |rrs| ==> !rrs[j].data.Cname?
    ensures Hops(rrs, i) == 0
  {
    if i > 0 {
      NoHops(rrs, i - 1);
    }
  }

  /** The record is from an answer to an exchange at or after `since`. */
  ghost predicate FetchedSince(env: Env, wire: seq<Exchange>, qtype: uint16, rr: RR, since: int) {
    exists k :: 0 <= k < |wire| && wire[k].time >= since && wire[k].qtype == qtype &&
        TakenFrom(AnswerOf(env.net(k, wire[k])), rr)
  }

  lemma OneMore(h: nat, lag: nat)
    ensures (h + 1) * lag == h * lag + lag
  {
  }

  lemma {:induction false} AgedByHop(env: Env, w: seq<Exchange>, lag: nat, name: string, qtype: uint16, rrs: seq<RR>,
      since: int, i: nat)
    requires Aged(env, w, lag, name, qtype, rrs, since) && i < |rrs|
    ensures FetchedSince(env, w, qtype, rrs[i], since - Hops(rrs, i) * lag)
    decreases |rrs|
  {
    hide TakenFrom, Hops;
    if !rrs[0].data.Cname? {
      NoHops(rrs, i);
    } else if i == 0 {
      ZeroHops(rrs);
    } else {
      AgedByHop(env, w, lag, Target(rrs[0]), qtype, rrs[1..], since - lag, i - 1);
      HopsTail(rrs, i);
      OneMore(Hops(rrs[1..], i - 1), lag);
    }
  }

  /** In every run, over any network: a record behind h CNAMEs in a live cached list was fetched at
      most (h + 1) * (3600 + limit) seconds ago, limit being the longest a request takes. */
  lemma {:induction false} CachedRecordsFresh(env: Env, limit: nat, evs: seq<Event>, name: string, qtype: uint16,
      i: nat)
    requires AliasesPack(env)
    requires var sh := Run(env, limit, IDLE, evs).sh;
             Lookup(sh.cache, CacheKey(name, qtype), sh.now).Some? && i < |sh.cache[CacheKey(name, qtype)].rrs|
    ensures var sh := Run(env, limit, IDLE, evs).sh;
            var rrs := sh.cache[CacheKey(name, qtype)].rrs;
            FetchedSince(env, sh.wire, qtype, rrs[i], sh.now - (Hops(rrs, i) + 1) * (3600 + limit))
  {
    hide CacheKey, Aged, Run, FetchedSince, AliasesPack;
    RunAged(env, limit, evs);
    var sh := Run(env, limit, IDLE, evs).sh;
    var e := sh.cache[CacheKey(name, qtype)];
    var lag := 3600 + limit;
    assert EntryAged(env, sh, lag, name, qtype, e);
    AgedByHop(env, sh.wire, lag, name, qtype, e.rrs, e.expire - lag, i);
    OneMore(Hops(e.rrs, i), lag);
    FetchedEarlier(env, sh.wire, qtype, e.rrs[i], e.expire - lag - Hops(e.rrs, i) * lag,
        sh.now - (Hops(e.rrs, i) + 1) * lag);
  }

  lemma FetchedEarlier(env: Env, w: seq<Exchange>, qtype: uint16, rr: RR, since: int, before: int)
    requires before <= since && FetchedSince(env, w, qtype, rr, since)
    ensures FetchedSince(env, w, qtype, rr, before)
  {
    hide TakenFrom;
  }

  /** The same for the list a request is returning, successful or not; the request itself may have
      taken up to limit seconds more. */
  lemma {:induction false} ReturnedRecordsFresh(env: Env, limit: nat, evs: seq<Event>, id: nat, i: nat)
    requires AliasesPack(env)
    requires var s := Run(env, limit, IDLE, evs);
             id in s.tasks && s.tasks[id].phase.Returning? && i < |s.tasks[id].phase.answers|
    ensures var s := Run(env, limit, IDLE, evs);
            var rrs := s.tasks[id].phase.answers;
            FetchedSince(env, s.sh.wire, s.tasks[id].qtype, rrs[i],
                s.sh.now - limit - (Hops(rrs, i) + 1) * (3600 + limit))
  {
    hide Aged, Run, FetchedSince, AliasesPack, ChainFetched;
    RunAged(env, limit, evs);
    var s := Run(env, limit, IDLE, evs);
    var t := s.tasks[id];
    var lag := 3600 + limit;
    assert TaskAged(env, s.sh, limit, t);
    AgedByHop(env, s.sh.wire, lag, Current(t), t.qtype, t.phase.answers, t.start - lag, i);
    OneMore(Hops(t.phase.answers, i), lag);
    FetchedEarlier(env, s.sh.wire, t.qtype, t.phase.answers[i], t.start - lag - Hops(t.phase.answers, i) * lag,
                   s.sh.now - limit - (Hops(t.phase.answers, i) + 1) * lag);
  }

  /** The first CNAME of every answer belongs to the name asked about. */
  ghost predicate AliasesOwned(env: Env) {
    forall k, e {:trigger env.net(k, e)} ::
      var c := FirstCname(AnswerOf(env.net(k, e)));
      c.Some? ==> c.value.owner == e.name
  }

  /** An alias chain: CNAMEs first, then other records; the first CNAME belongs to the name and each
      leads to the owner of the next. */
  ghost predicate LinkedChain(name: string, rrs: seq<RR>) {
    AliasesFirst(rrs) &&
    (rrs != [] && rrs[0].data.Cname? ==> rrs[0].owner == name) &&
    forall i {:trigger rrs[i]} :: 0 < i < |rrs| && rrs[i].data.Cname? ==> Target(rrs[i - 1]) == rrs[i].owner
  }

  lemma {:induction false} AgedLinked(env: Env, w: seq<Exchange>, lag: nat, name: string, qtype: uint16, rrs: seq<RR>,
      since: int)
    requires AliasesOwned(env) && Aged(env, w, lag, name, qtype, rrs, since)
    ensures LinkedChain(name, rrs)
    decreases |rrs|
  {
    if rrs != [] && rrs[0].data.Cname? {
      var tail := rrs[1..];
      AgedLinked(env, w, lag, Target(rrs[0]), qtype, tail, since - lag);
      assert forall j :: 0 < j < |rrs| ==> rrs[j] == tail[j - 1];
    }
  }

  /** What every list of a run is: CNAMEs, then other records; linked by owner, when every answer's
      first CNAME can be packed and belongs to the name asked about. */
  ghost predicate ProperList(env: Env, name: string, rrs: seq<RR>) {
    AliasesFirst(rrs) && (AliasesPack(env) && AliasesOwned(env) ==> LinkedChain(name, rrs))
  }

  /** In every run, over any network, every cached list and every list being returned is such a list. */
  lemma {:induction false} ListsAreChains(env: Env, limit: nat, evs: seq<Event>)
    ensures var s := Run(env, limit, IDLE, evs);
            (forall n, q {:trigger CacheKey(n, q)} :: CacheKey(n, q) in s.sh.cache ==>
               ProperList(env, n, s.sh.cache[CacheKey(n, q)].rrs)) &&
            (forall id :: id in s.tasks && s.tasks[id].phase.Returning? ==>
               ProperList(env, Current(s.tasks[id]), s.tasks[id].phase.answers))
  {
    hide CacheKey, Aged, Run, AliasesPack, AliasesOwned, LinkedChain, ChainFetched, AliasesFirst;
    RunShaped(env, limit, evs);
    if AliasesPack(env) && AliasesOwned(env) {
      RunAged(env, limit, evs);
    }
    var s := Run(env, limit, IDLE, evs);
    forall n, q | CacheKey(n, q) in s.sh.cache
      ensures ProperList(env, n, s.sh.cache[CacheKey(n, q)].rrs)
    {
      var e := s.sh.cache[CacheKey(n, q)];
      if AliasesPack(env) && AliasesOwned(env) {
        assert EntryAged(env, s.sh, 3600 + limit, n, q, e);
        AgedLinked(env, s.sh.wire, 3600 + limit, n, q, e.rrs, e.expire - (3600 + limit));
      }
    }
    forall id | id in s.tasks && s.tasks[id].phase.Returning?
      ensures ProperList(env, Current(s.tasks[id]), s.tasks[id].phase.answers)
    {
      var t := s.tasks[id];
      assert TaskShaped(t);
      if AliasesPack(env) && AliasesOwned(env) {
        assert TaskAged(env, s.sh, limit, t);
        AgedLinked(env, s.sh.wire, 3600 + limit, Current(t), t.qtype, t.phase.answers, t.start - (3600 + limit));
      }
    }
  }
}
