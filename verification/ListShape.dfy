/** In every interleaved run, over any network and whatever can be packed: CNAMEs come first in every
    cached list and in every answer. */
module ListShape {
  import opened Records
  import opened CacheCodec
  import opened Resolver
  import opened ResolverRuns

  /** No CNAME comes after a record of another type. */
  predicate AliasesFirst(rrs: seq<RR>) {
    forall i, j :: 0 <= i < j < |rrs| && rrs[j].data.Cname? ==> rrs[i].data.Cname?
  }

  predicate AllAliases(rrs: seq<RR>) {
    forall i :: 0 <= i < |rrs| ==> rrs[i].data.Cname?
  }

  ghost predicate CacheShaped(cache: Cache) {
    forall k :: k in cache ==> AliasesFirst(cache[k].rrs)
  }

  predicate TaskShaped(t: Task) {
    AllAliases(t.chain) && (t.phase.Returning? ==> AliasesFirst(t.phase.answers))
  }

  ghost predicate StateShaped(s: State) {
    CacheShaped(s.sh.cache) && forall id :: id in s.tasks ==> TaskShaped(s.tasks[id])
  }

  /** Leaving out the records that cannot be packed does not change the shape. */
  lemma {:induction false} KeptShaped(codec: RecordCodec, rrs: seq<RR>)
    requires AliasesFirst(rrs)
    ensures AliasesFirst(Kept(codec, rrs))
  {
    hide Packs;
    if rrs != [] {
      var front, last := rrs[..|rrs| - 1], rrs[|rrs| - 1];
      KeptShaped(codec, front);
      if last.data.Cname? {
        assert forall rr :: rr in front ==> rr.data.Cname?;
        KeptAmong(codec, front);
      }
    }
  }

  lemma PutShaped(env: Env, sh: Shared, key: string, rrs: seq<RR>, ttl: uint32)
    requires CacheShaped(sh.cache) && AliasesFirst(rrs)
    ensures CacheShaped(Put(env.codec, sh.cache, key, rrs, ttl, sh.now))
  {
    hide AliasesFirst, Kept;
    KeptShaped(env.codec, rrs);
  }

  lemma ResponseShaped(env: Env, sh: Shared, name: string, qtype: uint16, rrs: seq<RR>)
    requires CacheShaped(sh.cache) && AliasesFirst(rrs)
    ensures CacheShaped(CacheResponse(env, sh, name, qtype, rrs).cache)
  {
    hide CacheShaped, AliasesFirst, Put, CacheKey, NormalizeTtl, MinTtl;
    if rrs != [] {
      PutShaped(env, sh, CacheKey(name, qtype), rrs, NormalizeTtl(MinTtl(rrs)));
    }
  }

  lemma ReceiveShaped(env: Env, sh: Shared, t: Task, reply: Reply)
    requires CacheShaped(sh.cache) && AllAliases(t.chain) && reply.Reply?
    ensures var (sh', t') := Receive(env, sh, t, reply); CacheShaped(sh'.cache) && TaskShaped(t')
  {
    hide CacheShaped, Put, CacheKey, NormalizeTtl, NegativeTtl, CacheResponse;
    if reply.rcode == NX_DOMAIN {
      PutShaped(env, sh, CacheKey(Current(t), t.qtype), [], NormalizeTtl(NegativeTtl(env.timeout, reply.authority)));
    } else if FirstCname(reply.answer).None? {
      FirstCnameExact(reply.answer);
      ResponseShaped(env, sh, Current(t), t.qtype, reply.answer);
    } else {
      SomeCname(reply.answer);
    }
  }

  lemma AdvanceShaped(env: Env, sh: Shared, t: Task)
    requires CacheShaped(sh.cache) && TaskShaped(t)
    ensures var (sh', t') := Advance(env, sh, t); CacheShaped(sh'.cache) && TaskShaped(t')
  {
    hide CacheKey, Receive, CacheResponse;
    match t.phase
    case Asking(i) =>
      if i < |env.servers| {
        var e := Exchange(sh.now, env.servers[i], Current(t), t.qtype);
        var reply := env.net(|sh.wire|, e);
        if Usable(reply) {
          ReceiveShaped(env, sh.(wire := sh.wire + [e]), t, reply);
        }
      }
    case Returning(answers, rcode) =>
      if t.chain != [] {
        var longer := [t.chain[0]] + answers;
        assert longer[1..] == answers;
        ResponseShaped(env, sh, Reached(t.name, t.chain[1..]), t.qtype, longer);
      }
    case LookingUp =>
  }

  lemma {:induction false} RunShaped(env: Env, limit: nat, evs: seq<Event>)
    ensures StateShaped(Run(env, limit, IDLE, evs))
  {
    hide CacheKey, Advance, AliasesFirst, AllAliases;
    if evs != [] {
      var before, last := Run(env, limit, IDLE, evs[..|evs| - 1]), evs[|evs| - 1];
      RunShaped(env, limit, evs[..|evs| - 1]);
      match last
      case Begin(id, name, qtype) =>
        NewTaskShaped(Task(name, qtype, before.sh.now, [], LookingUp));
      case Step(id) =>
        if id in before.tasks {
          AdvanceShaped(env, before.sh, before.tasks[id]);
        }
      case _ =>
    }
  }

  lemma NewTaskShaped(t: Task)
    requires t.chain == [] && t.phase == LookingUp
    ensures TaskShaped(t)
  {
  }
}
