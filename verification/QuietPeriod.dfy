/** How long a stored answer spares the upstream servers. */
module QuietPeriod {
  import opened Records
  import opened CacheCodec
  import opened Resolver
  import opened ResolverRuns

  predicate Concerns(t: Task, name: string, qtype: uint16) {
    Current(t) == name && t.qtype == qtype
  }

  /** The name is waiting for the end of its aliases; its list is stored when they return. */
  predicate WaitsIn(start: string, chain: seq<RR>, name: string) {
    chain != [] && (Reached(start, chain[1..]) == name || WaitsIn(start, chain[1..], name))
  }

  predicate Pending(t: Task, name: string, qtype: uint16) {
    t.qtype == qtype && WaitsIn(t.name, t.chain, name)
  }

  ghost predicate NoneAsking(tasks: map<nat, Task>, name: string, qtype: uint16) {
    forall id :: id in tasks && tasks[id].phase.Asking? ==> !Concerns(tasks[id], name, qtype)
  }

  ghost predicate NonePending(tasks: map<nat, Task>, name: string, qtype: uint16) {
    forall id :: id in tasks ==> !Pending(tasks[id], name, qtype)
  }

  predicate StoredUntil(cache: Cache, name: string, qtype: uint16, until: nat) {
    CacheKey(name, qtype) in cache && cache[CacheKey(name, qtype)].expire >= until
  }

  /** The key is stored for at least until `until`; no request is just asking for it; and until then
      is at most five minutes, or no request is about to store it again. */
  ghost predicate Quiet(s: State, name: string, qtype: uint16, until: nat) {
    StoredUntil(s.sh.cache, name, qtype, until) && NoneAsking(s.tasks, name, qtype) &&
    (until <= s.sh.now + 300 || NonePending(s.tasks, name, qtype))
  }

  /** No exchange from number n on is about the name and type. */
  ghost predicate NoneSince(wire: seq<Exchange>, n: nat, name: string, qtype: uint16) {
    forall k :: n <= k < |wire| ==> wire[k].name != name || wire[k].qtype != qtype
  }

  /** Storing a list: under the key itself it lives for five minutes at least. */
  lemma PutQuiet(env: Env, sh: Shared, name: string, qtype: uint16, n: string, q: uint16, rrs: seq<RR>,
      ttl: uint32, until: nat)
    requires StoredUntil(sh.cache, name, qtype, until) && ttl >= 300
    requires until <= sh.now + 300 || n != name || q != qtype
    ensures StoredUntil(Put(env.codec, sh.cache, CacheKey(n, q), rrs, ttl, sh.now), name, qtype, until)
  {
    hide Kept, CacheKey;
    if CacheKey(n, q) == CacheKey(name, qtype) {
      CacheKeyInjective(n, q, name, qtype);
    }
  }

  lemma ReceiveQuiet(env: Env, sh: Shared, t: Task, reply: Reply, name: string, qtype: uint16, until: nat)
    requires reply.Reply? && !Concerns(t, name, qtype) && StoredUntil(sh.cache, name, qtype, until)
    ensures var (sh', t') := Receive(env, sh, t, reply);
            StoredUntil(sh'.cache, name, qtype, until) && sh'.now == sh.now && sh'.wire == sh.wire &&
            !t'.phase.Asking? && (Pending(t', name, qtype) ==> Pending(t, name, qtype))
  {
    hide CacheKey, NormalizeTtl, MinTtl, NegativeTtl, Put, StoredUntil;
    PutQuiet(env, sh, name, qtype, Current(t), t.qtype, [], NormalizeTtl(NegativeTtl(env.timeout, reply.authority)),
        until);
    if reply.answer != [] {
      PutQuiet(env, sh, name, qtype, Current(t), t.qtype, reply.answer, NormalizeTtl(MinTtl(reply.answer)), until);
    }
    if FirstCname(reply.answer).Some? {
      assert ([FirstCname(reply.answer).value] + t.chain)[1..] == t.chain;
    }
  }

  lemma {:induction false} AdvanceQuiet(env: Env, sh: Shared, t: Task, name: string, qtype: uint16, until: nat)
    requires StoredUntil(sh.cache, name, qtype, until) && sh.now <= until
    requires until <= sh.now + 300 || !Pending(t, name, qtype)
    requires t.phase.Asking? ==> !Concerns(t, name, qtype)
    ensures var (sh', t') := Advance(env, sh, t);
            StoredUntil(sh'.cache, name, qtype, until) && sh'.now == sh.now &&
            (t'.phase.Asking? ==> !Concerns(t', name, qtype)) &&
            (Pending(t', name, qtype) ==> Pending(t, name, qtype)) &&
            sh.wire <= sh'.wire && NoneSince(sh'.wire, |sh.wire|, name, qtype)
  {
    hide CacheKey, NormalizeTtl, MinTtl, NegativeTtl, Put, Receive;
    match t.phase
    case LookingUp =>
    case Asking(i) =>
      if i < |env.servers| {
        var e := Exchange(sh.now, env.servers[i], Current(t), t.qtype);
        var reply := env.net(|sh.wire|, e);
        if Usable(reply) {
          ReceiveQuiet(env, sh.(wire := sh.wire + [e]), t, reply, name, qtype, until);
        }
      }
    case Returning(answers, rcode) =>
      if t.chain != [] {
        var longer := [t.chain[0]] + answers;
        PutQuiet(env, sh, name, qtype, Reached(t.name, t.chain[1..]), t.qtype, longer, NormalizeTtl(MinTtl(longer)),
            until);
      }
  }

  lemma {:induction false} NextQuiet(env: Env, limit: nat, s: State, ev: Event, name: string, qtype: uint16, until: nat)
    requires Quiet(s, name, qtype, until) && ev != Evict(CacheKey(name, qtype))
    requires Next(env, limit, s, ev).sh.now <= until
    ensures var s' := Next(env, limit, s, ev);
            Quiet(s', name, qtype, until) && s.sh.wire <= s'.sh.wire && NoneSince(s'.sh.wire, |s.sh.wire|, name, qtype)
  {
    hide CacheKey, Advance, Concerns;
    match ev
    case Step(id) =>
      if id in s.tasks {
        hide Pending;
        AdvanceTime(env, s.sh, s.tasks[id]);
        AdvanceQuiet(env, s.sh, s.tasks[id], name, qtype, until);
      }
    case _ =>
  }

  lemma AdvanceTime(env: Env, sh: Shared, t: Task)
    ensures Advance(env, sh, t).0.now == sh.now
  {
    hide CacheKey, NormalizeTtl, MinTtl, NegativeTtl, Put;
  }

  lemma NextTime(env: Env, limit: nat, s: State, ev: Event)
    ensures s.sh.now <= Next(env, limit, s, ev).sh.now
  {
    hide Advance;
    if ev.Step? && ev.id in s.tasks {
      AdvanceTime(env, s.sh, s.tasks[ev.id]);
    }
  }

  /** While a key is quiet, no run without an eviction of that key asks any upstream server about it. */
  lemma {:induction false} NoQueriesWhileQuiet(env: Env, limit: nat, s: State, evs: seq<Event>, name: string,
      qtype: uint16, until: nat)
    requires Quiet(s, name, qtype, until) && Evict(CacheKey(name, qtype)) !in evs
    requires Run(env, limit, s, evs).sh.now <= until
    ensures var s' := Run(env, limit, s, evs);
            Quiet(s', name, qtype, until) && s.sh.wire <= s'.sh.wire && NoneSince(s'.sh.wire, |s.sh.wire|, name, qtype)
    decreases |evs|
  {
    hide CacheKey, Next, Quiet;
    if evs != [] {
      var before, last := Run(env, limit, s, evs[..|evs| - 1]), evs[|evs| - 1];
      NextTime(env, limit, before, last);
      NoQueriesWhileQuiet(env, limit, s, evs[..|evs| - 1], name, qtype, until);
      NextQuiet(env, limit, before, last, name, qtype, until);
    }
  }

  /** The next step of the request stores a list for the key: it receives that the name does not exist,
      or records for it without an alias, or it returns with success to the name. */
  predicate Stores(env: Env, sh: Shared, t: Task, name: string, qtype: uint16) {
    match t.phase
    case LookingUp => false
    case Asking(i) =>
      Concerns(t, name, qtype) && i < |env.servers| &&
      var reply := env.net(|sh.wire|, Exchange(sh.now, env.servers[i], name, qtype));
      Usable(reply) && (reply.rcode == NX_DOMAIN || (reply.answer != [] && FirstCname(reply.answer).None?))
    case Returning(answers, rcode) =>
      t.chain != [] && rcode == SUCCESS && Reached(t.name, t.chain[1..]) == name && t.qtype == qtype
  }

  lemma PutStored(env: Env, sh: Shared, name: string, qtype: uint16, rrs: seq<RR>, ttl: uint32)
    requires ttl >= 300
    ensures StoredUntil(Put(env.codec, sh.cache, CacheKey(name, qtype), rrs, ttl, sh.now), name, qtype, sh.now + 300)
  {
    hide CacheKey, Kept;
  }

  lemma PutElsewhere(env: Env, sh: Shared, name: string, qtype: uint16, n: string, q: uint16, rrs: seq<RR>, ttl: uint32)
    requires n != name || q != qtype
    ensures SameAt(sh.cache, Put(env.codec, sh.cache, CacheKey(n, q), rrs, ttl, sh.now), CacheKey(name, qtype))
  {
    hide CacheKey, Kept;
    if CacheKey(n, q) == CacheKey(name, qtype) {
      CacheKeyInjective(n, q, name, qtype);
    }
  }

  /** An entry for the key is no new one. */
  predicate SameAt(before: Cache, after: Cache, key: string) {
    key in after ==> key in before && after[key] == before[key]
  }

  /** What a step does at a key: it stores a list there for five minutes at least, or nothing new. */
  lemma {:induction false} StoresExact(env: Env, sh: Shared, t: Task, name: string, qtype: uint16)
    ensures var (sh', t') := Advance(env, sh, t);
            sh'.now == sh.now &&
            if Stores(env, sh, t, name, qtype) then StoredUntil(sh'.cache, name, qtype, sh.now + 300)
            else SameAt(sh.cache, sh'.cache, CacheKey(name, qtype))
  {
    hide CacheKey, NormalizeTtl, MinTtl, NegativeTtl, Put, StoredUntil;
    match t.phase
    case LookingUp =>
    case Asking(i) =>
      if i < |env.servers| {
        var e := Exchange(sh.now, env.servers[i], Current(t), t.qtype);
        var reply := env.net(|sh.wire|, e);
        if Usable(reply) {
          StoredOnReply(env, sh.(wire := sh.wire + [e]), t, reply, name, qtype);
        }
      }
    case Returning(answers, rcode) =>
      if t.chain != [] {
        var longer, up := [t.chain[0]] + answers, Reached(t.name, t.chain[1..]);
        if up == name && t.qtype == qtype {
          PutStored(env, sh, name, qtype, longer, NormalizeTtl(MinTtl(longer)));
        } else {
          PutElsewhere(env, sh, name, qtype, up, t.qtype, longer, NormalizeTtl(MinTtl(longer)));
        }
      }
  }

  lemma StoredOnReply(env: Env, sh: Shared, t: Task, reply: Reply, name: string, qtype: uint16)
    requires Usable(reply)
    ensures var (sh', t') := Receive(env, sh, t, reply);
            sh'.now == sh.now &&
            if Concerns(t, name, qtype) && (reply.rcode == NX_DOMAIN ||
                (reply.answer != [] && FirstCname(reply.answer).None?))
            then StoredUntil(sh'.cache, name, qtype, sh.now + 300)
            else SameAt(sh.cache, sh'.cache, CacheKey(name, qtype))
  {
    hide CacheKey, NormalizeTtl, MinTtl, NegativeTtl, Put, StoredUntil;
    var negative := NormalizeTtl(NegativeTtl(env.timeout, reply.authority));
    if Concerns(t, name, qtype) {
      PutStored(env, sh, name, qtype, [], negative);
      if reply.answer != [] {
        PutStored(env, sh, name, qtype, reply.answer, NormalizeTtl(MinTtl(reply.answer)));
      }
    } else {
      PutElsewhere(env, sh, name, qtype, Current(t), t.qtype, [], negative);
      if reply.answer != [] {
        PutElsewhere(env, sh, name, qtype, Current(t), t.qtype, reply.answer, NormalizeTtl(MinTtl(reply.answer)));
      }
    }
  }

  /** How long a key just stored stays quiet: its whole life, if no request is about to store it again,
      and otherwise five minutes. */
  ghost function QuietUntil(s: State, name: string, qtype: uint16): nat
    requires CacheKey(name, qtype) in s.sh.cache
  {
    if NonePending(s.tasks, name, qtype) then s.sh.cache[CacheKey(name, qtype)].expire else s.sh.now + 300
  }

  /** A step that stores a list for a key, whatever the list, makes the key quiet, unless another
      request is in the middle of asking for it. */
  lemma {:induction false} StoredIsQuiet(env: Env, limit: nat, s: State, id: nat, name: string, qtype: uint16)
    requires id in s.tasks && Stores(env, s.sh, s.tasks[id], name, qtype)
    requires NoneAsking(s.tasks - {id}, name, qtype)
    ensures var s' := Next(env, limit, s, Step(id));
            CacheKey(name, qtype) in s'.sh.cache && Quiet(s', name, qtype, QuietUntil(s', name, qtype)) &&
            QuietUntil(s', name, qtype) >= s.sh.now + 300
  {
    hide CacheKey, Advance, Stores, Concerns;
    StoresExact(env, s.sh, s.tasks[id], name, qtype);
    StoringEndsAsking(env, s.sh, s.tasks[id], name, qtype);
    var s' := Next(env, limit, s, Step(id));
    forall j | j in s'.tasks && s'.tasks[j].phase.Asking?
      ensures !Concerns(s'.tasks[j], name, qtype)
    {
      assert j != id;
      assert (s.tasks - {id})[j] == s'.tasks[j];
    }
  }

  lemma StoringEndsAsking(env: Env, sh: Shared, t: Task, name: string, qtype: uint16)
    requires Stores(env, sh, t, name, qtype)
    ensures !Advance(env, sh, t).1.phase.Asking?
  {
    hide CacheKey, NormalizeTtl, MinTtl, NegativeTtl, Put;
  }

  /** Once a request stores a list for a key, no run asks any upstream server about the key again while
      it is quiet, unless the key is evicted. */
  lemma {:induction false} NoQueriesOnceStored(env: Env, limit: nat, s: State, id: nat, evs: seq<Event>, name: string,
      qtype: uint16)
    requires id in s.tasks && Stores(env, s.sh, s.tasks[id], name, qtype)
    requires NoneAsking(s.tasks - {id}, name, qtype) && Evict(CacheKey(name, qtype)) !in evs
    requires var s' := Next(env, limit, s, Step(id));
             CacheKey(name, qtype) in s'.sh.cache ==>
               Run(env, limit, s', evs).sh.now <= QuietUntil(s', name, qtype)
    ensures var s' := Next(env, limit, s, Step(id));
            NoneSince(Run(env, limit, s', evs).sh.wire, |s'.sh.wire|, name, qtype)
  {
    hide CacheKey, Next, Quiet, Stores, Run, NoneAsking, QuietUntil;
    StoredIsQuiet(env, limit, s, id, name, qtype);
    var s' := Next(env, limit, s, Step(id));
    NoQueriesWhileQuiet(env, limit, s', evs, name, qtype, QuietUntil(s', name, qtype));
  }

  /** No cached list outlives the next hour. */
  ghost predicate ExpiresWithinHour(sh: Shared) {
    forall k :: k in sh.cache ==> sh.cache[k].expire <= sh.now + 3600
  }

  lemma PutExpires(env: Env, sh: Shared, key: string, rrs: seq<RR>, ttl: uint32)
    requires ExpiresWithinHour(sh) && ttl <= 3600
    ensures ExpiresWithinHour(sh.(cache := Put(env.codec, sh.cache, key, rrs, ttl, sh.now)))
  {
    hide Kept;
  }

  lemma {:induction false} AdvanceExpires(env: Env, sh: Shared, t: Task)
    requires ExpiresWithinHour(sh)
    ensures ExpiresWithinHour(Advance(env, sh, t).0)
  {
    hide CacheKey, NormalizeTtl, MinTtl, NegativeTtl, Put;
    match t.phase
    case LookingUp =>
    case Asking(i) =>
      if i < |env.servers| {
        var e := Exchange(sh.now, env.servers[i], Current(t), t.qtype);
        var reply := env.net(|sh.wire|, e);
        if Usable(reply) {
          var sh' := sh.(wire := sh.wire + [e]);
          PutExpires(env, sh', CacheKey(Current(t), t.qtype), [],
              NormalizeTtl(NegativeTtl(env.timeout, reply.authority)));
          if reply.answer != [] {
            PutExpires(env, sh', CacheKey(Current(t), t.qtype), reply.answer, NormalizeTtl(MinTtl(reply.answer)));
          }
        }
      }
    case Returning(answers, rcode) =>
      if t.chain != [] {
        var longer := [t.chain[0]] + answers;
        PutExpires(env, sh, CacheKey(Reached(t.name, t.chain[1..]), t.qtype), longer, NormalizeTtl(MinTtl(longer)));
      }
  }

  /** In every run, over any network, no cached list can be served for more than an hour from now. */
  lemma {:induction false} ExpiryWithinHour(env: Env, limit: nat, evs: seq<Event>)
    ensures ExpiresWithinHour(Run(env, limit, IDLE, evs).sh)
  {
    hide Advance;
    if evs != [] {
      var before, last := Run(env, limit, IDLE, evs[..|evs| - 1]), evs[|evs| - 1];
      ExpiryWithinHour(env, limit, evs[..|evs| - 1]);
      if last.Step? && last.id in before.tasks {
        AdvanceExpires(env, before.sh, before.tasks[last.id]);
      }
    }
  }
}
