/** What a name resolves to when there is no cache and the upstream world does not change, and
    what a single request makes of it. */
module ChainSpec {
  import opened Options
  import opened Records
  import opened CacheCodec
  import opened Resolver

  /** Equal questions to a server always get equal replies. */
  ghost predicate Steady(env: Env) {
    forall k, j, e: Exchange, f: Exchange {:trigger env.net(k, e), env.net(j, f)} ::
      e.server == f.server && e.name == f.name && e.qtype == f.qtype ==> env.net(k, e) == env.net(j, f)
  }

  /** The first usable reply from server i on. */
  function SpecReply(env: Env, name: string, qtype: uint16, i: nat): Reply
    requires i <= |env.servers|
    decreases |env.servers| - i
  {
    if i == |env.servers| then NoReply
    else
      var reply := env.net(0, Exchange(0, env.servers[i], name, qtype));
      if Usable(reply) then reply else SpecReply(env, name, qtype, i + 1)
  }

  /** What the upstream world says about one name. */
  datatype Link = Dead | Missing | Alias(cname: RR) | Final(rrs: seq<RR>)

  function Classify(reply: Reply): Link {
    if reply.NoReply? then Dead
    else if reply.rcode == NX_DOMAIN then Missing
    else
      match FirstCname(reply.answer)
      case Some(cname) => Alias(cname)
      case None => Final(reply.answer)
  }

  function LinkOf(env: Env, name: string, qtype: uint16): Link {
    Classify(SpecReply(env, name, qtype, 0))
  }

  datatype Verdict = Unresolved | Resolved(rrs: seq<RR>, present: bool)

  /** The cacheless meaning of a name: its CNAMEs in order, at most fuel of them, and then the
      records of the last name, none if that name does not exist. */
  function Chase(env: Env, name: string, qtype: uint16, fuel: nat): Verdict
    decreases fuel
  {
    match LinkOf(env, name, qtype)
    case Dead => Unresolved
    case Missing => Resolved([], false)
    case Final(rrs) => Resolved(rrs, true)
    case Alias(cname) =>
      if fuel == 0 then Unresolved
      else
        match Chase(env, Target(cname), qtype, fuel - 1)
        case Unresolved => Unresolved
        case Resolved(rrs, e) => Resolved([cname] + rrs, e)
  }

  ghost predicate Means(env: Env, name: string, qtype: uint16, rrs: seq<RR>, e: bool) {
    exists fuel: nat :: Chase(env, name, qtype, fuel) == Resolved(rrs, e)
  }

  lemma {:induction false} ChaseMore(env: Env, name: string, qtype: uint16, fuel: nat, more: nat)
    requires fuel <= more && Chase(env, name, qtype, fuel).Resolved?
    ensures Chase(env, name, qtype, more) == Chase(env, name, qtype, fuel)
    decreases fuel
  {
    hide LinkOf;
    var link := LinkOf(env, name, qtype);
    if link.Alias? {
      ChaseMore(env, Target(link.cname), qtype, fuel - 1, more - 1);
    }
  }

  /** A name has at most one meaning. */
  lemma {:induction false} MeaningUnique(env: Env, name: string, qtype: uint16, r1: seq<RR>, e1: bool, r2: seq<RR>,
      e2: bool)
    requires Means(env, name, qtype, r1, e1) && Means(env, name, qtype, r2, e2)
    ensures r1 == r2 && e1 == e2
  {
    var f1: nat :| Chase(env, name, qtype, f1) == Resolved(r1, e1);
    var f2: nat :| Chase(env, name, qtype, f2) == Resolved(r2, e2);
    if f1 <= f2 {
      ChaseMore(env, name, qtype, f1, f2);
    } else {
      ChaseMore(env, name, qtype, f2, f1);
    }
  }

  /** The name reached after i aliases, if the chain is that long. */
  function NameAt(env: Env, name: string, qtype: uint16, i: nat): Option<string>
    decreases i
  {
    if i == 0 then Some(name)
    else
      match LinkOf(env, name, qtype)
      case Alias(cname) => NameAt(env, Target(cname), qtype, i - 1)
      case _ => None
  }

  lemma {:induction false} NameAtSplit(env: Env, name: string, qtype: uint16, i: nat, j: nat)
    ensures NameAt(env, name, qtype, i + j) ==
            if NameAt(env, name, qtype, i).None? then None
            else NameAt(env, NameAt(env, name, qtype, i).value, qtype, j)
    decreases i
  {
    hide LinkOf;
    var link := LinkOf(env, name, qtype);
    if i > 0 && link.Alias? {
      NameAtSplit(env, Target(link.cname), qtype, i - 1, j);
    }
  }

  /** A resolved name's chain ends. */
  lemma {:induction false} ChainEnds(env: Env, name: string, qtype: uint16, fuel: nat) returns (m: nat)
    requires Chase(env, name, qtype, fuel).Resolved?
    ensures m <= fuel && NameAt(env, name, qtype, m).Some? && NameAt(env, name, qtype, m + 1).None?
    decreases fuel
  {
    hide LinkOf;
    var link := LinkOf(env, name, qtype);
    if link.Alias? {
      var k := ChainEnds(env, Target(link.cname), qtype, fuel - 1);
      m := k + 1;
    } else {
      m := 0;
    }
  }

  /** The alias chain of a name comes back to a name it has already passed. */
  ghost predicate Cyclic(env: Env, name: string, qtype: uint16) {
    exists i: nat, j: nat {:trigger NameAt(env, name, qtype, i), NameAt(env, name, qtype, j)} ::
      i < j && NameAt(env, name, qtype, i).Some? && NameAt(env, name, qtype, i) == NameAt(env, name, qtype, j)
  }

  /** A cyclic chain means nothing, however far it is followed. */
  lemma {:induction false} CyclicMeansNothing(env: Env, name: string, qtype: uint16, fuel: nat)
    requires Cyclic(env, name, qtype)
    ensures Chase(env, name, qtype, fuel).Unresolved?
  {
    hide LinkOf;
    if Chase(env, name, qtype, fuel).Resolved? {
      var m := ChainEnds(env, name, qtype, fuel);
      var i: nat, j: nat :| i < j && NameAt(env, name, qtype, i).Some? &&
          NameAt(env, name, qtype, i) == NameAt(env, name, qtype, j);
      if m < j {
        NameAtSplit(env, name, qtype, m + 1, j - (m + 1));
      } else {
        NameAtSplit(env, name, qtype, i, m - j);
        NameAtSplit(env, name, qtype, j, m - j);
        NameAtSplit(env, name, qtype, i, m - j + 1);
        NameAtSplit(env, name, qtype, j, m - j + 1);
        NameAtSplit(env, name, qtype, i + (m - j) + 1, j - i - 1);
      }
    }
  }

  // One request against a steady world.

  lemma {:induction false} AskIsSpec(env: Env, wire: seq<Exchange>, now: nat, name: string, qtype: uint16, i: nat)
    requires Steady(env) && i <= |env.servers|
    ensures Ask(env, wire, now, name, qtype, i).reply == SpecReply(env, name, qtype, i)
    decreases |env.servers| - i
  {
    if i < |env.servers| {
      var e := Exchange(now, env.servers[i], name, qtype);
      assert env.net(|wire|, e) == env.net(0, Exchange(0, env.servers[i], name, qtype));
      AskIsSpec(env, wire + [e], now, name, qtype, i + 1);
    }
  }

  predicate Live(sh: Shared, name: string, qtype: uint16) {
    Lookup(sh.cache, CacheKey(name, qtype), sh.now).Some?
  }

  /** The i-th name of the chain is cached and live, or answers without an alias. */
  ghost predicate EndsWell(env: Env, sh: Shared, name: string, qtype: uint16, i: nat) {
    NameAt(env, name, qtype, i).Some? &&
    var n := NameAt(env, name, qtype, i).value;
    Live(sh, n, qtype) || LinkOf(env, n, qtype).Final?
  }

  lemma LiveAfterPurge(sh: Shared, key: string, wire: seq<Exchange>)
    ensures var sh' := Shared(sh.now, Purge(sh.cache, key, sh.now), wire);
            forall n, q :: Live(sh', n, q) == Live(sh, n, q)
  {
    hide CacheKey;
  }

  /** Exactly when a request succeeds: within the first names of the chain, as many as the depth
      allows, one is cached or answers. */
  lemma {:induction false} SuccessExact(env: Env, sh: Shared, name: string, qtype: uint16, depth: nat)
    requires Steady(env) && depth <= MAX_DEPTH + 1
    ensures Resolve(env, sh, name, qtype, depth).rcode == SUCCESS <==>
            exists i: nat :: i + depth <= MAX_DEPTH && EndsWell(env, sh, name, qtype, i)
    decreases MAX_DEPTH + 1 - depth
  {
    hide LinkOf, Live, Put, NormalizeTtl, CacheKey, MinTtl, NegativeTtl, Ask;
    if depth > MAX_DEPTH {
      return;
    }
    assert Live(sh, name, qtype) == Lookup(sh.cache, CacheKey(name, qtype),
        sh.now).Some? by { LiveIsHit(sh, name, qtype); }
    if Live(sh, name, qtype) {
      assert EndsWell(env, sh, name, qtype, 0);
      return;
    }
    var asked := Ask(env, sh.wire, sh.now, name, qtype, 0);
    AskIsSpec(env, sh.wire, sh.now, name, qtype, 0);
    AskFacts(env, sh.wire, sh.now, name, qtype, 0);
    LinkIs(env, name, qtype, asked.reply);
    match LinkOf(env, name, qtype)
    case Alias(cname) =>
      var sh2 := Shared(sh.now, Purge(sh.cache, CacheKey(name, qtype), sh.now), asked.wire);
      SuccessExact(env, sh2, Target(cname), qtype, depth + 1);
      LiveAfterPurge(sh, CacheKey(name, qtype), asked.wire);
      EndsWellShift(env, sh, sh2, name, qtype, cname, depth);
    case Final(_) =>
      assert EndsWell(env, sh, name, qtype, 0);
    case _ =>
      forall i: nat
        ensures !EndsWell(env, sh, name, qtype, i)
      {
      }
  }

  ghost predicate EndsMissing(env: Env, name: string, qtype: uint16, i: nat) {
    NameAt(env, name, qtype, i).Some? && LinkOf(env, NameAt(env, name, qtype, i).value, qtype).Missing?
  }

  /** Exactly when a request that does not succeed reports that the name does not exist; otherwise it
      reports a server failure. */
  lemma {:induction false} FailureExact(env: Env, sh: Shared, name: string, qtype: uint16, depth: nat)
    requires Steady(env) && depth <= MAX_DEPTH + 1
    requires Resolve(env, sh, name, qtype, depth).rcode != SUCCESS
    ensures Resolve(env, sh, name, qtype, depth).rcode ==
            if exists i: nat :: i + depth <= MAX_DEPTH && EndsMissing(env, name, qtype, i) then NX_DOMAIN else SERV_FAIL
    decreases MAX_DEPTH + 1 - depth
  {
    hide LinkOf, Put, NormalizeTtl, CacheKey, MinTtl, NegativeTtl, Ask;
    if depth > MAX_DEPTH {
      return;
    }
    var asked := Ask(env, sh.wire, sh.now, name, qtype, 0);
    AskIsSpec(env, sh.wire, sh.now, name, qtype, 0);
    AskFacts(env, sh.wire, sh.now, name, qtype, 0);
    LinkIs(env, name, qtype, asked.reply);
    match LinkOf(env, name, qtype)
    case Alias(cname) =>
      var sh2 := Shared(sh.now, Purge(sh.cache, CacheKey(name, qtype), sh.now), asked.wire);
      FailureExact(env, sh2, Target(cname), qtype, depth + 1);
      EndsMissingShift(env, name, qtype, cname, depth);
    case Missing =>
      assert EndsMissing(env, name, qtype, 0);
    case Dead =>
      assert forall i: nat :: !EndsMissing(env, name, qtype, i);
    case Final(_) =>
  }

  lemma EndsMissingShift(env: Env, name: string, qtype: uint16, cname: RR, depth: nat)
    requires LinkOf(env, name, qtype) == Alias(cname)
    ensures (exists i: nat :: i + depth <= MAX_DEPTH && EndsMissing(env, name, qtype, i)) <==>
            (exists i: nat :: i + depth + 1 <= MAX_DEPTH && EndsMissing(env, Target(cname), qtype, i))
  {
    hide LinkOf;
    if i: nat :| i + depth <= MAX_DEPTH && EndsMissing(env, name, qtype, i) {
      assert EndsMissing(env, Target(cname), qtype, i - 1);
    }
    if i: nat :| i + depth + 1 <= MAX_DEPTH && EndsMissing(env, Target(cname), qtype, i) {
      assert EndsMissing(env, name, qtype, i + 1);
    }
  }

  lemma LiveIsHit(sh: Shared, name: string, qtype: uint16)
    ensures Live(sh, name, qtype) == Lookup(sh.cache, CacheKey(name, qtype), sh.now).Some?
  {
  }

  lemma LinkIs(env: Env, name: string, qtype: uint16, reply: Reply)
    requires reply == SpecReply(env, name, qtype, 0)
    ensures LinkOf(env, name, qtype) == Classify(reply)
  {
  }

  lemma EndsWellShift(env: Env, sh: Shared, sh2: Shared, name: string, qtype: uint16, cname: RR, depth: nat)
    requires LinkOf(env, name, qtype) == Alias(cname) && !Live(sh, name, qtype)
    requires forall n, q :: Live(sh2, n, q) == Live(sh, n, q)
    ensures (exists i: nat :: i + depth <= MAX_DEPTH && EndsWell(env, sh, name, qtype, i)) <==>
            (exists i: nat :: i + depth + 1 <= MAX_DEPTH && EndsWell(env, sh2, Target(cname), qtype, i))
  {
    hide LinkOf, Live;
    if i: nat :| i + depth <= MAX_DEPTH && EndsWell(env, sh, name, qtype, i) {
      assert EndsWell(env, sh2, Target(cname), qtype, i - 1);
    }
    if i: nat :| i + depth + 1 <= MAX_DEPTH && EndsWell(env, sh2, Target(cname), qtype, i) {
      assert EndsWell(env, sh, name, qtype, i + 1);
    }
  }

  /** The first n aliases of a chain. */
  function Aliases(env: Env, name: string, qtype: uint16, n: nat): seq<RR>
    decreases n
  {
    if n == 0 then []
    else
      match LinkOf(env, name, qtype)
      case Alias(cname) => [cname] + Aliases(env, Target(cname), qtype, n - 1)
      case _ => []
  }

  /** None of the names that the depth allows to visit is cached and live. */
  ghost predicate NoneLive(env: Env, sh: Shared, name: string, qtype: uint16, depth: nat) {
    forall i: nat :: i + depth <= MAX_DEPTH && NameAt(env, name, qtype, i).Some? ==>
      !Live(sh, NameAt(env, name, qtype, i).value, qtype)
  }

  lemma NoneLiveBehind(env: Env, sh: Shared, sh2: Shared, name: string, qtype: uint16, cname: RR, depth: nat)
    requires LinkOf(env, name, qtype) == Alias(cname) && NoneLive(env, sh, name, qtype, depth)
    requires forall n, q :: Live(sh2, n, q) == Live(sh, n, q)
    ensures NoneLive(env, sh2, Target(cname), qtype, depth + 1)
  {
    hide LinkOf, Live;
    forall i: nat | i + depth + 1 <= MAX_DEPTH && NameAt(env, Target(cname), qtype, i).Some?
      ensures !Live(sh2, NameAt(env, Target(cname), qtype, i).value, qtype)
    {
      assert NameAt(env, name, qtype, i + 1) == NameAt(env, Target(cname), qtype, i);
    }
  }

  /** A chain of more aliases than the depth allows, none of whose first names is cached, fails
      with the aliases found and leaves nothing new in the cache. */
  lemma {:induction false} LongChainFails(env: Env, sh: Shared, name: string, qtype: uint16, depth: nat)
    requires Steady(env) && depth <= MAX_DEPTH + 1
    requires NameAt(env, name, qtype, MAX_DEPTH + 1 - depth).Some?
    requires NoneLive(env, sh, name, qtype, depth)
    ensures var o := Resolve(env, sh, name, qtype, depth);
            o.rcode == SERV_FAIL && o.answers == Aliases(env, name, qtype, MAX_DEPTH + 1 - depth) &&
            o.sh.cache.Keys <= sh.cache.Keys && forall k :: k in o.sh.cache ==> o.sh.cache[k] == sh.cache[k]
    decreases MAX_DEPTH + 1 - depth
  {
    hide LinkOf, Live, Put, NormalizeTtl, CacheKey, MinTtl, NegativeTtl, Ask;
    if depth <= MAX_DEPTH {
      assert NameAt(env, name, qtype, 0) == Some(name);
      LiveIsHit(sh, name, qtype);
      var asked := Ask(env, sh.wire, sh.now, name, qtype, 0);
      AskIsSpec(env, sh.wire, sh.now, name, qtype, 0);
      AskFacts(env, sh.wire, sh.now, name, qtype, 0);
      LinkIs(env, name, qtype, asked.reply);
      var cname := LinkOf(env, name, qtype).cname;
      var sh2 := Shared(sh.now, Purge(sh.cache, CacheKey(name, qtype), sh.now), asked.wire);
      assert NameAt(env, name, qtype, MAX_DEPTH + 1 - depth) == NameAt(env, Target(cname), qtype, MAX_DEPTH - depth);
      LiveAfterPurge(sh, CacheKey(name, qtype), asked.wire);
      NoneLiveBehind(env, sh, sh2, name, qtype, cname, depth);
      LongChainFails(env, sh2, Target(cname), qtype, depth + 1);
    }
  }

  /** The i-th name of the chain answers without an alias. */
  ghost predicate EndsFinal(env: Env, name: string, qtype: uint16, i: nat) {
    NameAt(env, name, qtype, i).Some? && LinkOf(env, NameAt(env, name, qtype, i).value, qtype).Final?
  }

  /** A chain does not end twice. */
  lemma {:induction false} EndsOnce(env: Env, name: string, qtype: uint16, i: nat, j: nat)
    requires EndsFinal(env, name, qtype, i)
    ensures !EndsMissing(env, name, qtype, j)
  {
    hide LinkOf;
    if i < j {
      NameAtSplit(env, name, qtype, i, j - i);
    } else if j < i {
      NameAtSplit(env, name, qtype, j, i - j);
    }
  }

  /** A whole request none of whose first eleven names is cached: it succeeds if and only if the chain
      ends in records after at most ten aliases, and reports a missing name if and only if it ends in one
      after at most ten; otherwise it reports a server failure. */
  lemma {:induction false} ColdRequestExact(env: Env, sh: Shared, name: string, qtype: uint16)
    requires Steady(env)
    requires forall i: nat :: i <= 10 && NameAt(env, name, qtype, i).Some? ==>
               !Live(sh, NameAt(env, name, qtype, i).value, qtype)
    ensures var code := Resolve(env, sh, name, qtype, 0).rcode;
            (code == 0 <==> exists i: nat :: i <= 10 && EndsFinal(env, name, qtype, i)) &&
            (code == 3 <==> exists i: nat :: i <= 10 && EndsMissing(env, name, qtype, i)) &&
            (code == 0 || code == 2 || code == 3)
  {
    hide Resolve, LinkOf, Live, NameAt, Steady;
    SuccessExact(env, sh, name, qtype, 0);
    if i: nat :| i <= 10 && EndsFinal(env, name, qtype, i) {
      assert EndsWell(env, sh, name, qtype, i);
    }
    if i: nat :| i <= 10 && EndsWell(env, sh, name, qtype, i) {
      assert EndsFinal(env, name, qtype, i);
    }
    if Resolve(env, sh, name, qtype, 0).rcode != SUCCESS {
      FailureExact(env, sh, name, qtype, 0);
    } else {
      var i: nat :| i <= 10 && EndsFinal(env, name, qtype, i);
      forall j: nat
        ensures !EndsMissing(env, name, qtype, j)
      {
        EndsOnce(env, name, qtype, i, j);
      }
    }
  }
}
