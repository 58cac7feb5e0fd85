/** Interleaved runs against a steady upstream world: whatever was asked, evicted or expired
    before, answers and cached lists are those of the cacheless meaning. */
module RunsMeaning {
  import opened Text
  import opened Records
  import opened CacheCodec
  import opened Resolver
  import opened ChainSpec
  import opened ResolverRuns

  ghost predicate CacheMeans(env: Env, cache: Cache) {
    forall n, q {:trigger CacheKey(n, q)} :: CacheKey(n, q) in cache ==>
      StoredMeans(env, n, q, cache[CacheKey(n, q)].rrs)
  }

  /** The list holds what can be packed of the meaning of the name, whether or not the last name
      exists. */
  ghost predicate StoredMeans(env: Env, name: string, qtype: uint16, rrs: seq<RR>) {
    exists m, e :: Means(env, name, qtype, m, e) && rrs == Kept(env.codec, m)
  }

  /** Records that arrive can be packed again. */
  ghost predicate Repacks(env: Env) {
    forall k, e {:trigger env.net(k, e)} :: AllPack(env.codec, AnswerOf(env.net(k, e)))
  }

  /** The list is the first h records of that meaning, which were just received, and then what can be
      packed of the rest, which was cached. */
  ghost predicate CachedFrom(env: Env, rrs: seq<RR>, m: seq<RR>, h: nat) {
    h <= |m| && rrs == m[..h] + Kept(env.codec, m[h..])
  }

  /** The list is that meaning, but for records missing from its cached rest that cannot be packed. */
  ghost predicate SameList(env: Env, rrs: seq<RR>, m: seq<RR>) {
    (exists h: nat :: CachedFrom(env, rrs, m, h)) && (Repacks(env) ==> rrs == m)
  }

  /** What can be packed of such a list is what can be packed of the meaning. */
  lemma SameKept(env: Env, rrs: seq<RR>, m: seq<RR>)
    requires SameList(env, rrs, m)
    ensures Kept(env.codec, rrs) == Kept(env.codec, m)
  {
    hide Kept, Repacks;
    var h: nat :| CachedFrom(env, rrs, m, h);
    assert m == m[..h] + m[h..];
    KeptConcat(env.codec, m[..h], m[h..]);
    KeptConcat(env.codec, m[..h], Kept(env.codec, m[h..]));
    KeptTwice(env.codec, m[h..]);
  }

  ghost predicate MeansList(env: Env, name: string, qtype: uint16, rrs: seq<RR>) {
    exists m, e :: Means(env, name, qtype, m, e) && SameList(env, rrs, m)
  }

  /** Each alias followed is what the world says about the name it was followed from. */
  ghost predicate ChainMeans(env: Env, name: string, qtype: uint16, chain: seq<RR>) {
    chain != [] ==>
      LinkOf(env, Reached(name, chain[1..]), qtype) == Alias(chain[0]) && ChainMeans(env, name, qtype, chain[1..])
  }

  /** What a return code says about the list returned for a name reached over `hops` aliases. */
  ghost predicate ReturnMeans(env: Env, name: string, qtype: uint16, hops: nat, answers: seq<RR>, rcode: nat) {
    (rcode == SUCCESS && MeansList(env, name, qtype, answers)) ||
    (rcode == NX_DOMAIN && Means(env, name, qtype, answers, false)) ||
    (rcode == SERV_FAIL && (hops <= MAX_DEPTH ==> Chase(env, name, qtype, MAX_DEPTH - hops).Unresolved?))
  }

  ghost predicate TaskMeans(env: Env, t: Task) {
    |t.chain| <= MAX_DEPTH + 1 &&
    ChainMeans(env, t.name, t.qtype, t.chain) &&
    match t.phase
    case LookingUp => true
    case Asking(i) =>
      |t.chain| <= MAX_DEPTH && i <= |env.servers| &&
      SpecReply(env, Current(t), t.qtype, i) == SpecReply(env, Current(t), t.qtype, 0)
    case Returning(answers, rcode) => ReturnMeans(env, Current(t), t.qtype, |t.chain|, answers, rcode)
  }

  ghost predicate StateMeans(env: Env, s: State) {
    CacheMeans(env, s.sh.cache) && forall id :: id in s.tasks ==> TaskMeans(env, s.tasks[id])
  }

  lemma {:induction false} PutMeans(env: Env, sh: Shared, name: string, qtype: uint16, rrs: seq<RR>, ttl: uint32)
    requires CacheMeans(env, sh.cache) && MeansList(env, name, qtype, rrs)
    ensures CacheMeans(env, Put(env.codec, sh.cache, CacheKey(name, qtype), rrs, ttl, sh.now))
  {
    hide CacheKey, Means, Kept, SameList;
    var m, e :| Means(env, name, qtype, m, e) && SameList(env, rrs, m);
    SameKept(env, rrs, m);
    var cache := Put(env.codec, sh.cache, CacheKey(name, qtype), rrs, ttl, sh.now);
    forall n, q | CacheKey(n, q) in cache
      ensures StoredMeans(env, n, q, cache[CacheKey(n, q)].rrs)
    {
      if CacheKey(n, q) == CacheKey(name, qtype) {
        CacheKeyInjective(n, q, name, qtype);
      }
    }
  }

  lemma {:induction false} ResponseMeans(env: Env, sh: Shared, name: string, qtype: uint16, rrs: seq<RR>)
    requires CacheMeans(env, sh.cache) && MeansList(env, name, qtype, rrs)
    ensures CacheMeans(env, CacheResponse(env, sh, name, qtype, rrs).cache)
  {
    hide CacheKey, MeansList, CacheMeans, Put, NormalizeTtl, MinTtl;
    if rrs != [] {
      PutMeans(env, sh, name, qtype, rrs, NormalizeTtl(MinTtl(rrs)));
    }
  }

  /** One more alias in front of a meaning. */
  lemma {:induction false} MeansAlias(env: Env, name: string, qtype: uint16, cname: RR, rrs: seq<RR>, e: bool)
    requires LinkOf(env, name, qtype) == Alias(cname) && Means(env, Target(cname), qtype, rrs, e)
    ensures Means(env, name, qtype, [cname] + rrs, e)
  {
    hide LinkOf;
    var fuel: nat :| Chase(env, Target(cname), qtype, fuel) == Resolved(rrs, e);
    assert Chase(env, name, qtype, fuel + 1) == Resolved([cname] + rrs, e);
  }

  lemma MeansFinal(env: Env, name: string, qtype: uint16)
    ensures LinkOf(env, name, qtype).Missing? ==> Means(env, name, qtype, [], false)
    ensures LinkOf(env, name, qtype).Final? ==> Means(env, name, qtype, LinkOf(env, name, qtype).rrs, true)
    ensures LinkOf(env, name, qtype).Dead? ==> forall fuel: nat :: Chase(env, name, qtype, fuel).Unresolved?
  {
    hide LinkOf;
    var link := LinkOf(env, name, qtype);
    if link.Missing? {
      assert Chase(env, name, qtype, 0) == Resolved([], false);
    }
    if link.Final? {
      assert Chase(env, name, qtype, 0) == Resolved(link.rrs, true);
    }
  }

  lemma {:induction false} ReturnUp(env: Env, name: string, qtype: uint16, cname: RR, hops: nat, answers: seq<RR>,
      rcode: nat)
    requires LinkOf(env, name, qtype) == Alias(cname) &&
        ReturnMeans(env, Target(cname), qtype, hops + 1, answers, rcode)
    ensures ReturnMeans(env, name, qtype, hops, [cname] + answers, rcode)
  {
    hide LinkOf, Means;
    if rcode == SUCCESS {
      hide SameList;
      var m, e :| Means(env, Target(cname), qtype, m, e) && SameList(env, answers, m);
      MeansAlias(env, name, qtype, cname, m, e);
      SameBehind(env, cname, answers, m);
    } else if rcode == NX_DOMAIN {
      MeansAlias(env, name, qtype, cname, answers, false);
    }
  }

  lemma SameBehind(env: Env, cname: RR, rrs: seq<RR>, m: seq<RR>)
    requires SameList(env, rrs, m)
    ensures SameList(env, [cname] + rrs, [cname] + m)
  {
    hide Kept, Repacks;
    var h: nat :| CachedFrom(env, rrs, m, h);
    var longer := [cname] + m;
    assert longer[..h + 1] == [cname] + m[..h] && longer[h + 1..] == m[h..];
    AppendAssoc([cname], m[..h], Kept(env.codec, m[h..]));
    assert CachedFrom(env, [cname] + rrs, longer, h + 1);
  }

  /** Every record of a meaning comes from some reply. */
  lemma {:induction false} MeaningPacks(env: Env, name: string, qtype: uint16, fuel: nat)
    requires Repacks(env) && Chase(env, name, qtype, fuel).Resolved?
    ensures AllPack(env.codec, Chase(env, name, qtype, fuel).rrs)
    decreases fuel
  {
    hide Packs, LinkOf;
    LinkPacks(env, name, qtype);
    var link := LinkOf(env, name, qtype);
    if link.Alias? {
      MeaningPacks(env, Target(link.cname), qtype, fuel - 1);
    }
  }

  lemma LinkPacks(env: Env, name: string, qtype: uint16)
    requires Repacks(env)
    ensures LinkOf(env, name, qtype).Alias? ==> Packs(env.codec, LinkOf(env, name, qtype).cname)
    ensures LinkOf(env, name, qtype).Final? ==> AllPack(env.codec, LinkOf(env, name, qtype).rrs)
  {
    hide Packs;
    SpecReplyPacks(env, name, qtype, 0);
    var reply := SpecReply(env, name, qtype, 0);
    if FirstCname(AnswerOf(reply)).Some? {
      SomeCname(AnswerOf(reply));
    }
  }

  lemma {:induction false} SpecReplyPacks(env: Env, name: string, qtype: uint16, i: nat)
    requires Repacks(env) && i <= |env.servers|
    ensures AllPack(env.codec, AnswerOf(SpecReply(env, name, qtype, i)))
    decreases |env.servers| - i
  {
    hide AllPack;
    if i < |env.servers| {
      var reply := env.net(0, Exchange(0, env.servers[i], name, qtype));
      assert AllPack(env.codec, AnswerOf(reply));
      if !Usable(reply) {
        SpecReplyPacks(env, name, qtype, i + 1);
      }
    } else {
      assert AllPack(env.codec, []) by { NonePack(env); }
    }
  }

  lemma NonePack(env: Env)
    ensures AllPack(env.codec, [])
  {
  }

  /** What was stored is served. */
  lemma StoredIsMeant(env: Env, name: string, qtype: uint16, rrs: seq<RR>)
    requires StoredMeans(env, name, qtype, rrs)
    ensures MeansList(env, name, qtype, rrs)
  {
    hide Kept, AllPack, Repacks, Chase;
    var m, e :| Means(env, name, qtype, m, e) && rrs == Kept(env.codec, m);
    assert m[0..] == m && m[..0] + rrs == rrs;
    assert CachedFrom(env, rrs, m, 0);
    if Repacks(env) {
      var fuel: nat :| Chase(env, name, qtype, fuel) == Resolved(m, e);
      MeaningPacks(env, name, qtype, fuel);
      KeptAll(env.codec, m);
    }
    assert SameList(env, rrs, m);
  }

  lemma MeantExactly(env: Env, name: string, qtype: uint16, rrs: seq<RR>, e: bool)
    requires Means(env, name, qtype, rrs, e)
    ensures MeansList(env, name, qtype, rrs)
  {
    hide Means, Kept, Repacks;
    KeptNone(env.codec);
    assert rrs[|rrs|..] == [] && rrs[..|rrs|] + [] == rrs;
    assert CachedFrom(env, rrs, rrs, |rrs|);
  }

  lemma {:induction false} ReceiveMeans(env: Env, sh: Shared, t: Task, reply: Reply)
    requires CacheMeans(env, sh.cache) && |t.chain| <= MAX_DEPTH &&
        ChainMeans(env, t.name, t.qtype, t.chain)
    requires reply == SpecReply(env, Current(t), t.qtype, 0) && Usable(reply)
    ensures var (sh', t') := Receive(env, sh, t, reply);
            CacheMeans(env, sh'.cache) && TaskMeans(env, t')
  {
    hide CacheKey, Put, NormalizeTtl, MinTtl, NegativeTtl, CacheMeans, Means, MeansList, LinkOf, Chase, CacheResponse;
    var name := Current(t);
    LinkIs(env, name, t.qtype, reply);
    MeansFinal(env, name, t.qtype);
    if reply.rcode == NX_DOMAIN {
      MeantExactly(env, name, t.qtype, [], false);
      PutMeans(env, sh, name, t.qtype, [], NormalizeTtl(NegativeTtl(env.timeout, reply.authority)));
    } else if FirstCname(reply.answer).None? {
      MeantExactly(env, name, t.qtype, reply.answer, true);
      ResponseMeans(env, sh, name, t.qtype, reply.answer);
    } else {
      var chain := [FirstCname(reply.answer).value] + t.chain;
      assert chain[1..] == t.chain;
    }
  }

  lemma {:induction false} AdvanceMeans(env: Env, sh: Shared, t: Task)
    requires Steady(env) && CacheMeans(env, sh.cache) && TaskMeans(env, t)
    ensures var (sh', t') := Advance(env, sh, t);
            CacheMeans(env, sh'.cache) && TaskMeans(env, t')
  {
    hide CacheKey, Put, NormalizeTtl, MinTtl, NegativeTtl, Receive, Means, LinkOf, Chase, MeansList, StoredMeans,
        CacheResponse;
    match t.phase
    case LookingUp =>
      if |t.chain| <= MAX_DEPTH && Lookup(sh.cache, CacheKey(Current(t), t.qtype), sh.now).Some? {
        StoredIsMeant(env, Current(t), t.qtype, sh.cache[CacheKey(Current(t), t.qtype)].rrs);
      }
    case Asking(i) =>
      if i < |env.servers| {
        var e := Exchange(sh.now, env.servers[i], Current(t), t.qtype);
        var reply := env.net(|sh.wire|, e);
        assert reply == env.net(0, Exchange(0, env.servers[i], Current(t), t.qtype));
        if Usable(reply) {
          ReceiveMeans(env, sh.(wire := sh.wire + [e]), t, reply);
        }
      } else {
        LinkIs(env, Current(t), t.qtype, SpecReply(env, Current(t), t.qtype, 0));
        MeansFinal(env, Current(t), t.qtype);
      }
    case Returning(answers, rcode) =>
      if t.chain != [] {
        var name := Reached(t.name, t.chain[1..]);
        ReturnUp(env, name, t.qtype, t.chain[0], |t.chain| - 1, answers, rcode);
        if rcode == SUCCESS {
          ResponseMeans(env, sh, name, t.qtype, [t.chain[0]] + answers);
        }
      }
  }

  lemma {:induction false} NextMeans(env: Env, limit: nat, s: State, ev: Event)
    requires Steady(env) && StateMeans(env, s)
    ensures StateMeans(env, Next(env, limit, s, ev))
  {
    hide Advance, Steady, CacheKey, StoredMeans, TaskMeans;
    match ev
    case Begin(id, name, qtype) =>
      NewTaskMeans(env, Task(name, qtype, s.sh.now, [], LookingUp));
    case Step(id) =>
      if id in s.tasks {
        AdvanceMeans(env, s.sh, s.tasks[id]);
      }
    case _ =>
  }

  lemma NewTaskMeans(env: Env, t: Task)
    requires t.chain == [] && t.phase == LookingUp
    ensures TaskMeans(env, t)
  {
  }

  lemma {:induction false} RunMeans(env: Env, limit: nat, evs: seq<Event>)
    requires Steady(env)
    ensures StateMeans(env, Run(env, limit, IDLE, evs))
  {
    hide Steady, Next;
    if evs != [] {
      RunMeans(env, limit, evs[..|evs| - 1]);
      NextMeans(env, limit, Run(env, limit, IDLE, evs[..|evs| - 1]), evs[|evs| - 1]);
    }
  }

  /** The cache refines the cacheless meaning: in every run, every cached list is the meaning of its
      key as far as it can be packed; a finished request with code 0 returns some first records of the
      meaning of its name, and then what can be packed of the rest; one with code 3 returns the meaning
      itself; and a request fails only when its name has no meaning within the allowed number of
      aliases. */
  lemma {:induction false} CacheRefinesMeaning(env: Env, limit: nat, evs: seq<Event>)
    requires Steady(env)
    ensures var s := Run(env, limit, IDLE, evs);
            (forall n, q {:trigger CacheKey(n, q)} :: CacheKey(n, q) in s.sh.cache ==>
               StoredMeans(env, n, q, s.sh.cache[CacheKey(n, q)].rrs)) &&
            (forall id :: id in s.tasks && Done(s.tasks[id]) ==>
               ReturnMeans(env, s.tasks[id].name, s.tasks[id].qtype, 0, s.tasks[id].phase.answers,
                   s.tasks[id].phase.rcode))
  {
    hide Steady, Run, StoredMeans, ReturnMeans, CacheKey;
    RunMeans(env, limit, evs);
    var s := Run(env, limit, IDLE, evs);
    forall id | id in s.tasks && Done(s.tasks[id])
      ensures ReturnMeans(env, s.tasks[id].name, s.tasks[id].qtype, 0, s.tasks[id].phase.answers,
          s.tasks[id].phase.rcode)
    {
      assert TaskMeans(env, s.tasks[id]);
    }
  }

  /** In every run, a name whose alias chain is cyclic is never cached, and every request for it that
      finishes ends in a server failure. */
  lemma {:induction false} CyclesFail(env: Env, limit: nat, evs: seq<Event>, name: string, qtype: uint16)
    requires Steady(env) && Cyclic(env, name, qtype)
    ensures var s := Run(env, limit, IDLE, evs);
            CacheKey(name, qtype) !in s.sh.cache &&
            forall id ::
              id in s.tasks && Done(s.tasks[id]) && s.tasks[id].name == name && s.tasks[id].qtype == qtype ==>
                s.tasks[id].phase.rcode == SERV_FAIL
  {
    hide Steady, Run, CacheKey, Cyclic;
    CacheRefinesMeaning(env, limit, evs);
    forall fuel: nat
      ensures Chase(env, name, qtype, fuel).Unresolved?
    {
      CyclicMeansNothing(env, name, qtype, fuel);
    }
  }

  /** In every run, a request for a name that ends in existing records after at most ten aliases
      returns its meaning, with success. */
  lemma {:induction false} ShortChainsSucceed(env: Env, limit: nat, evs: seq<Event>, id: nat)
    requires Steady(env)
    requires var s := Run(env, limit, IDLE, evs);
             id in s.tasks && Done(s.tasks[id]) &&
             Chase(env, s.tasks[id].name, s.tasks[id].qtype, 10).Resolved? &&
             Chase(env, s.tasks[id].name, s.tasks[id].qtype, 10).present
    ensures var t := Run(env, limit, IDLE, evs).tasks[id];
            t.phase.rcode == 0 &&
            SameList(env, t.phase.answers, Chase(env, t.name, t.qtype, 10).rrs)
  {
    hide Steady, Run, Chase, SameList;
    CacheRefinesMeaning(env, limit, evs);
    var t := Run(env, limit, IDLE, evs).tasks[id];
    var v := Chase(env, t.name, t.qtype, 10);
    assert Means(env, t.name, t.qtype, v.rrs, true);
    if t.phase.rcode == SUCCESS {
      var m, e :| Means(env, t.name, t.qtype, m, e) && SameList(env, t.phase.answers, m);
      MeaningUnique(env, t.name, t.qtype, v.rrs, true, m, e);
    } else if t.phase.rcode == NX_DOMAIN {
      MeaningUnique(env, t.name, t.qtype, v.rrs, true, t.phase.answers, false);
    }
  }
}
