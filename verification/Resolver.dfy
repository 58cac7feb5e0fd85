/** The caching resolver: the cache first, then the upstream servers in order; a CNAME is
    followed recursively and what it leads to is cached with it. */
module Resolver {
  import opened Options
  import opened Records
  import opened CacheCodec
  import opened Servers

  const SUCCESS := 0
  const SERV_FAIL := 2
  const NX_DOMAIN := 3

  /** The deepest recursion that still looks anything up. */
  const MAX_DEPTH := 10

  datatype Authority = SOA(minTtl: uint32) | NotSOA

  /** What came of an exchange: nothing (error, timeout, unparsable server) or a message. */
  datatype Reply = NoReply | Reply(rcode: nat, answer: seq<RR>, authority: seq<Authority>)

  predicate Usable(reply: Reply) {
    reply.Reply? && (reply.rcode == SUCCESS || reply.rcode == NX_DOMAIN)
  }

  datatype Exchange = Exchange(time: nat, server: string, name: string, qtype: uint16)

  /** The upstream world, by the running number of the exchange: two equal questions may be
      answered differently even within one second. */
  type Network = (nat, Exchange) -> Reply

  /** The surroundings of a resolver: the network, the servers in the order they are tried, the
      configured timeout, which doubles as a default lifetime, and how records are packed. */
  datatype Env = Env(net: Network, servers: seq<string>, timeout: int, codec: RecordCodec)

  function AnswerOf(reply: Reply): seq<RR> {
    if reply.Reply? then reply.answer else []
  }

  /** The state requests share: the clock, the cache and the exchanges made so far. */
  datatype Shared = Shared(now: nat, cache: Cache, wire: seq<Exchange>)

  function FirstCname(answer: seq<RR>): Option<RR> {
    if answer == [] then None
    else if answer[0].data.Cname? then Some(answer[0])
    else FirstCname(answer[1..])
  }

  /** The first CNAME of an answer stands at position i. */
  predicate CnameAt(answer: seq<RR>, i: nat) {
    i < |answer| && answer[i].data.Cname? && forall k :: 0 <= k < i ==> !answer[k].data.Cname?
  }

  predicate NoCname(answer: seq<RR>) {
    forall k :: 0 <= k < |answer| ==> !answer[k].data.Cname?
  }

  /** The first CNAME is the one with the least index. */
  lemma {:induction false} FirstCnameExact(answer: seq<RR>)
    ensures FirstCname(answer).None? <==> NoCname(answer)
    ensures forall i: nat :: CnameAt(answer, i) ==> FirstCname(answer) == Some(answer[i])
    ensures FirstCname(answer).Some? ==> exists i: nat :: CnameAt(answer, i)
  {
    if answer != [] {
      var tail := answer[1..];
      FirstCnameExact(tail);
      assert forall k :: 0 < k < |answer| ==> answer[k] == tail[k - 1];
      if answer[0].data.Cname? {
        assert CnameAt(answer, 0);
      } else {
        if i: nat :| CnameAt(tail, i) {
          assert CnameAt(answer, i + 1);
        }
        forall i: nat | CnameAt(answer, i)
          ensures FirstCname(answer) == Some(answer[i])
        {
          assert CnameAt(tail, i - 1);
        }
      }
    }
  }

  function MinTtl(rrs: seq<RR>): uint32
    requires rrs != []
  {
    if |rrs| == 1 then rrs[0].ttl
    else
      var front, last := MinTtl(rrs[..|rrs| - 1]), rrs[|rrs| - 1].ttl;
      if last < front then last else front
  }

  /** The lifetime of a negative answer: from the SOA record if it comes first in the authority
      section, otherwise from the timeout, truncated to 32 bits, 300 if that is 0. */
  function NegativeTtl(timeout: int, authority: seq<Authority>): uint32 {
    if authority != [] && authority[0].SOA? then authority[0].minTtl
    else
      var t := timeout % 0x1_0000_0000;
      if t == 0 then 300 else t
  }

  /** Without an SOA record in front, the configured timeout is the lifetime of a negative answer; a
      negative timeout wraps around to a long one, so the answer is kept for an hour. */
  lemma NegativeTtlCases(timeout: int, authority: seq<Authority>)
    ensures authority != [] && authority[0].SOA? ==> NegativeTtl(timeout, authority) == authority[0].minTtl
    ensures authority == [] || authority[0].NotSOA? ==>
              (timeout == 0 ==> NegativeTtl(timeout, authority) == 300) &&
              (0 < timeout < 0x1_0000_0000 ==> NegativeTtl(timeout, authority) == timeout) &&
              (-0x8000_0000 <= timeout < 0 ==> NormalizeTtl(NegativeTtl(timeout, authority)) == 3600)
  {
  }

  function CacheNegative(env: Env, sh: Shared, name: string, qtype: uint16, authority: seq<Authority>): Shared {
    var ttl := NormalizeTtl(NegativeTtl(env.timeout, authority));
    sh.(cache := Put(env.codec, sh.cache, CacheKey(name, qtype), [], ttl, sh.now))
  }

  function CacheResponse(env: Env, sh: Shared, name: string, qtype: uint16, rrs: seq<RR>): Shared {
    if rrs == [] then sh
    else sh.(cache := Put(env.codec, sh.cache, CacheKey(name, qtype), rrs, NormalizeTtl(MinTtl(rrs)), sh.now))
  }

  datatype Asked = Asked(reply: Reply, wire: seq<Exchange>)

  /** Asks the servers from index i on until one gives a usable reply. */
  function Ask(env: Env, wire: seq<Exchange>, now: nat, name: string, qtype: uint16, i: nat): Asked
    requires i <= |env.servers|
    decreases |env.servers| - i
  {
    if i == |env.servers| then Asked(NoReply, wire)
    else
      var e := Exchange(now, env.servers[i], name, qtype);
      var reply := env.net(|wire|, e);
      if Usable(reply) then Asked(reply, wire + [e])
      else Ask(env, wire + [e], now, name, qtype, i + 1)
  }

  datatype Outcome = Outcome(sh: Shared, answers: seq<RR>, rcode: nat)

  /** One request, without interruption. */
  function Resolve(env: Env, sh: Shared, name: string, qtype: uint16, depth: nat): Outcome
    decreases MAX_DEPTH + 1 - depth
  {
    if depth > MAX_DEPTH then Outcome(sh, [], SERV_FAIL)
    else
      var hit := Lookup(sh.cache, CacheKey(name, qtype), sh.now);
      var sh1 := sh.(cache := Purge(sh.cache, CacheKey(name, qtype), sh.now));
      if hit.Some? then Outcome(sh1, hit.value, SUCCESS)
      else
        var asked := Ask(env, sh1.wire, sh1.now, name, qtype, 0);
        var sh2 := sh1.(wire := asked.wire);
        if asked.reply.NoReply? then Outcome(sh2, [], SERV_FAIL)
        else if asked.reply.rcode == NX_DOMAIN then
          Outcome(CacheNegative(env, sh2, name, qtype, asked.reply.authority), [], NX_DOMAIN)
        else
          match FirstCname(asked.reply.answer)
          case None => Outcome(CacheResponse(env, sh2, name, qtype, asked.reply.answer), asked.reply.answer, SUCCESS)
          case Some(cname) =>
            var rest := Resolve(env, sh2, Target(cname), qtype, depth + 1);
            var answers := [cname] + rest.answers;
            Outcome(if rest.rcode == SUCCESS then CacheResponse(env, rest.sh, name, qtype, answers) else rest.sh,
                    answers, rest.rcode)
  }

  /** The reply used, if any, is usable, and every server tried before it was asked in vain. */
  lemma {:induction false} AskFacts(env: Env, wire: seq<Exchange>, now: nat, name: string, qtype: uint16, i: nat)
    requires i <= |env.servers|
    ensures var a := Ask(env, wire, now, name, qtype, i);
            var n := |a.wire| - |wire|;
            wire <= a.wire && 0 <= n <= |env.servers| - i &&
            (forall k :: |wire| <= k < |a.wire| ==>
                a.wire[k] == Exchange(now, env.servers[i + k - |wire|], name, qtype)) &&
            (forall k :: |wire| <= k < |a.wire| - 1 ==> !Usable(env.net(k, a.wire[k]))) &&
            (a.reply.NoReply? ==>
               n == |env.servers| - i && (n > 0 ==> !Usable(env.net(|a.wire| - 1, a.wire[|a.wire| - 1])))) &&
            (a.reply.Reply? ==> n > 0 && Usable(a.reply) && a.reply == env.net(|a.wire| - 1, a.wire[|a.wire| - 1]))
    decreases |env.servers| - i
  {
    if i < |env.servers| {
      var e := Exchange(now, env.servers[i], name, qtype);
      if !Usable(env.net(|wire|, e)) {
        AskFacts(env, wire + [e], now, name, qtype, i + 1);
        assert Ask(env, wire + [e], now, name, qtype, i + 1).wire[|wire|] == e;
      }
    }
  }

  /** The server whose reply is used was asked after every better-ranked server had failed; no
      reply means that every configured server failed. */
  lemma {:induction false} BestServerUsed(parse: UrlScheme, configured: seq<string>, env: Env, wire: seq<Exchange>,
      now: nat, name: string, qtype: uint16)
    requires env.servers == ExchangeSort(parse, configured)
    ensures var a := Ask(env, wire, now, name, qtype, 0);
            (a.reply.NoReply? ==>
               forall s :: s in configured ==> AskedInVain(env, wire, a.wire, now, s, name, qtype)) &&
            (a.reply.Reply? ==>
               a.wire != [] &&
               var used := a.wire[|a.wire| - 1].server;
               used in configured && Usable(a.reply) &&
               forall s :: s in configured && Rank(parse, s) < Rank(parse, used) ==>
                             AskedInVain(env, wire, a.wire, now, s, name, qtype))
  {
    hide Rank, RankSorted, ExchangeSort, Ask;
    SortFacts(parse, configured);
    UsedServer(env, wire, now, name, qtype);
    SameMembers(configured, env.servers);
    var a := Ask(env, wire, now, name, qtype, 0);
    var n := |a.wire| - |wire|;
    forall s | s in configured && (a.reply.Reply? ==> Rank(parse, s) < Rank(parse, env.servers[n - 1]))
      ensures AskedInVain(env, wire, a.wire, now, s, name, qtype)
    {
      var i :| 0 <= i < |env.servers| && env.servers[i] == s;
      if a.reply.Reply? {
        RankOrder(parse, env.servers, i, n - 1);
      }
      FailedServer(env, wire, now, name, qtype, i);
    }
  }

  /** The first exchange of a request that asks at all is with the first configured server of the best
      rank. */
  lemma {:induction false} FirstAsked(parse: UrlScheme, configured: seq<string>, env: Env, wire: seq<Exchange>,
      now: nat, name: string, qtype: uint16, b: nat)
    requires env.servers == ExchangeSort(parse, configured) && FirstBest(parse, configured, 0, |configured|, b)
    ensures var a := Ask(env, wire, now, name, qtype, 0);
            |a.wire| > |wire| && a.wire[|wire|] == Exchange(now, configured[b], name, qtype)
  {
    hide Rank, ExchangeSort;
    SortOrder(parse, configured);
    AskFacts(env, wire, now, name, qtype, 0);
  }

  lemma FirstOfAll(parse: UrlScheme, configured: seq<string>, env: Env, wire: seq<Exchange>, now: nat, name: string,
      qtype: uint16)
    requires env.servers == ExchangeSort(parse, configured)
    ensures var a := Ask(env, wire, now, name, qtype, 0);
            forall b: nat :: FirstBest(parse, configured, 0, |configured|, b) ==>
              |a.wire| > |wire| && a.wire[|wire|] == Exchange(now, configured[b], name, qtype)
  {
    hide Ask, ExchangeSort;
    forall b: nat | FirstBest(parse, configured, 0, |configured|, b)
      ensures var a := Ask(env, wire, now, name, qtype, 0);
              |a.wire| > |wire| && a.wire[|wire|] == Exchange(now, configured[b], name, qtype)
    {
      FirstAsked(parse, configured, env, wire, now, name, qtype, b);
    }
  }

  lemma UsedServer(env: Env, wire: seq<Exchange>, now: nat, name: string, qtype: uint16)
    ensures var a := Ask(env, wire, now, name, qtype, 0);
            var n := |a.wire| - |wire|;
            a.reply.Reply? ==>
              0 < n <= |env.servers| && a.wire != [] && a.wire[|a.wire| - 1].server == env.servers[n - 1] &&
                  Usable(a.reply)
  {
    AskFacts(env, wire, now, name, qtype, 0);
  }

  lemma RankOrder(parse: UrlScheme, servers: seq<string>, i: nat, j: nat)
    requires RankSorted(parse, servers, |servers|) && i < |servers| && j < |servers|
    requires Rank(parse, servers[i]) < Rank(parse, servers[j])
    ensures i < j
  {
    hide Rank;
  }

  lemma SameMembers(xs: seq<string>, ys: seq<string>)
    requires multiset(xs) == multiset(ys)
    ensures forall x :: x in xs <==> x in ys
  {
    assert forall x :: x in xs <==> x in multiset(xs);
    assert forall x :: x in ys <==> x in multiset(ys);
  }

  /** A server in front of the one whose reply was used, or any server when none was. */
  lemma {:induction false} FailedServer(env: Env, wire: seq<Exchange>, now: nat, name: string, qtype: uint16, i: nat)
    requires i < |env.servers|
    requires var a := Ask(env, wire, now, name, qtype, 0);
             a.reply.Reply? ==> i < |a.wire| - |wire| - 1
    ensures AskedInVain(env, wire, Ask(env, wire, now, name, qtype, 0).wire, now, env.servers[i], name, qtype)
  {
    AskFacts(env, wire, now, name, qtype, 0);
    var a := Ask(env, wire, now, name, qtype, 0);
    assert a.wire[|wire| + i] == Exchange(now, env.servers[i], name, qtype);
  }

  ghost predicate AskedInVain(env: Env, before: seq<Exchange>, after: seq<Exchange>, now: nat, server: string,
      name: string, qtype: uint16) {
    exists k :: |before| <= k < |after| && after[k] == Exchange(now, server, name, qtype) &&
        !Usable(env.net(k, after[k]))
  }

  lemma AskBounds(env: Env, wire: seq<Exchange>, now: nat, name: string, qtype: uint16)
    ensures var a := Ask(env, wire, now, name, qtype, 0);
            wire <= a.wire && |a.wire| <= |wire| + |env.servers| && (a.reply.Reply? ==> Usable(a.reply))
  {
    AskFacts(env, wire, now, name, qtype, 0);
  }

  /** The exchanges allowed from a depth on: one round over n servers for each name. */
  function Rounds(depth: nat, n: nat): nat
    requires depth <= MAX_DEPTH + 1
  {
    (MAX_DEPTH + 1 - depth) * n
  }

  lemma OneRound(depth: nat, n: nat)
    requires depth <= MAX_DEPTH
    ensures Rounds(depth, n) == Rounds(depth + 1, n) + n
  {
  }

  /** A request makes at most one round of the servers for each of its at most eleven names. */
  lemma {:induction false} ExchangesBounded(env: Env, sh: Shared, name: string, qtype: uint16, depth: nat)
    requires depth <= MAX_DEPTH + 1
    ensures var o := Resolve(env, sh, name, qtype, depth);
            sh.wire <= o.sh.wire && |o.sh.wire| <= |sh.wire| + Rounds(depth, |env.servers|)
    decreases MAX_DEPTH + 1 - depth
  {
    hide Put, CacheKey, NormalizeTtl, MinTtl, NegativeTtl, Purge, Ask, Rounds;
    if depth <= MAX_DEPTH && Lookup(sh.cache, CacheKey(name, qtype), sh.now).None? {
      AskBounds(env, sh.wire, sh.now, name, qtype);
      var asked := Ask(env, sh.wire, sh.now, name, qtype, 0);
      OneRound(depth, |env.servers|);
      if asked.reply.Reply? && asked.reply.rcode == SUCCESS && FirstCname(asked.reply.answer).Some? {
        var sh2 := Shared(sh.now, Purge(sh.cache, CacheKey(name, qtype), sh.now), asked.wire);
        ExchangesBounded(env, sh2, Target(FirstCname(asked.reply.answer).value), qtype, depth + 1);
      }
    }
  }

  /** A whole request: eleven rounds at most. */
  lemma {:induction false} RequestBounded(env: Env, sh: Shared, name: string, qtype: uint16)
    ensures |Resolve(env, sh, name, qtype, 0).sh.wire| <= |sh.wire| + 11 * |env.servers|
  {
    hide Resolve;
    ExchangesBounded(env, sh, name, qtype, 0);
  }

  /** The lifetime of a list comes from its shortest-lived record. */
  lemma {:induction false} MinTtlLeast(rrs: seq<RR>)
    requires rrs != []
    ensures forall i :: 0 <= i < |rrs| ==> MinTtl(rrs) <= rrs[i].ttl
    ensures exists i :: 0 <= i < |rrs| && MinTtl(rrs) == rrs[i].ttl
  {
    if |rrs| > 1 {
      var front := rrs[..|rrs| - 1];
      MinTtlLeast(front);
      var i :| 0 <= i < |front| && MinTtl(front) == front[i].ttl;
      assert rrs[i].ttl == front[i].ttl;
      assert forall j :: 0 <= j < |front| ==> rrs[j] == front[j];
      assert MinTtl(rrs) == if rrs[|rrs| - 1].ttl < MinTtl(front) then rrs[|rrs| - 1].ttl else rrs[i].ttl;
    } else {
      assert MinTtl(rrs) == rrs[0].ttl;
    }
  }

  lemma SomeCname(answer: seq<RR>)
    requires FirstCname(answer).Some?
    ensures FirstCname(answer).value in answer && FirstCname(answer).value.data.Cname?
  {
    FirstCnameExact(answer);
  }

  /** Which reply is used, by its code: the first with code 0 or 3, and none only when no server gives
      such a reply. */
  lemma {:induction false} UsedReplyExact(env: Env, wire: seq<Exchange>, now: nat, name: string, qtype: uint16)
    ensures var a := Ask(env, wire, now, name, qtype, 0);
            (forall k :: |wire| <= k < |a.wire| - (if a.reply.Reply? then 1 else 0) ==>
               var r := env.net(k, a.wire[k]); r.NoReply? || (r.rcode != 0 && r.rcode != 3)) &&
            (a.reply.Reply? ==>
               |a.wire| > |wire| && a.reply == env.net(|a.wire| - 1, a.wire[|a.wire| - 1]) &&
               (a.reply.rcode == 0 || a.reply.rcode == 3)) &&
            (a.reply.NoReply? ==> |a.wire| == |wire| + |env.servers|)
  {
    hide Ask;
    AskFacts(env, wire, now, name, qtype, 0);
  }

  lemma SomeCnameAt(answer: seq<RR>, i: nat)
    ensures CnameAt(answer, i) ==> i < |answer| && answer[i].data.Cname?
  {
  }

  /** What a request for a name that is not cached returns, by the reply used. Without one, a server
      failure. With code 3, no records and code 3. An answer without CNAMEs is returned as it is. Of an
      answer with CNAMEs the first one is kept, and what a request for its target returns follows it. */
  lemma {:induction false} AnswerExact(env: Env, sh: Shared, name: string, qtype: uint16, depth: nat, i: nat)
    requires depth <= 10 && Lookup(sh.cache, CacheKey(name, qtype), sh.now).None?
    ensures var o := Resolve(env, sh, name, qtype, depth);
            var a := Ask(env, sh.wire, sh.now, name, qtype, 0);
            var sh' := Shared(sh.now, Purge(sh.cache, CacheKey(name, qtype), sh.now), a.wire);
            (a.reply.NoReply? ==> o.answers == [] && o.rcode == 2) &&
            (a.reply.Reply? && a.reply.rcode == 3 ==> o.answers == [] && o.rcode == 3) &&
            (a.reply.Reply? && a.reply.rcode == 0 && NoCname(a.reply.answer) ==>
               o.answers == a.reply.answer && o.rcode == 0) &&
            (a.reply.Reply? && a.reply.rcode == 0 && CnameAt(a.reply.answer, i) ==>
               var rest := Resolve(env, sh', a.reply.answer[i].data.target, qtype, depth + 1);
               o.answers == [a.reply.answer[i]] + rest.answers && o.rcode == rest.rcode)
  {
    hide CacheKey, NormalizeTtl, NegativeTtl, MinTtl, Ask, Put, NoCname, CnameAt;
    var reply := Ask(env, sh.wire, sh.now, name, qtype, 0).reply;
    if reply.Reply? {
      FirstCnameExact(reply.answer);
      SomeCnameAt(reply.answer, i);
    }
  }

  /** The name at the end of a list of aliases. */
  function End(name: string, aliases: seq<RR>): string {
    if aliases == [] then name else Target(aliases[|aliases| - 1])
  }

  /** Nothing in the cache is new or changed, but for one key at most. */
  ghost predicate OnlyAt(before: Cache, after: Cache, key: Option<string>) {
    forall k :: k in after && key != Some(k) ==> k in before && after[k] == before[k]
  }

  /** The request misses the cache and gets an answer with an alias. */
  predicate FollowsAlias(env: Env, sh: Shared, name: string, qtype: uint16, depth: nat) {
    depth <= MAX_DEPTH && Lookup(sh.cache, CacheKey(name, qtype), sh.now).None? &&
    var reply := Ask(env, sh.wire, sh.now, name, qtype, 0).reply;
    reply.Reply? && reply.rcode != NX_DOMAIN && FirstCname(reply.answer).Some?
  }

  /** The request the alias leads to. */
  function Behind(env: Env, sh: Shared, name: string, qtype: uint16, depth: nat): Outcome
    requires FollowsAlias(env, sh, name, qtype, depth)
  {
    var asked := Ask(env, sh.wire, sh.now, name, qtype, 0);
    Resolve(env, Shared(sh.now, Purge(sh.cache, CacheKey(name, qtype), sh.now), asked.wire),
            Target(FirstCname(asked.reply.answer).value), qtype, depth + 1)
  }

  lemma AliasOutcome(env: Env, sh: Shared, name: string, qtype: uint16, depth: nat)
    requires FollowsAlias(env, sh, name, qtype, depth)
    ensures var rest := Behind(env, sh, name, qtype, depth);
            var answers := [FirstCname(Ask(env, sh.wire, sh.now, name, qtype, 0).reply.answer).value] + rest.answers;
            Resolve(env, sh, name, qtype, depth) ==
              Outcome(if rest.rcode == SUCCESS then CacheResponse(env, rest.sh, name, qtype, answers) else rest.sh,
                      answers, rest.rcode)
  {
    hide CacheKey, Ask, CacheResponse;
  }

  lemma {:induction false} ResolveKeepsTime(env: Env, sh: Shared, name: string, qtype: uint16, depth: nat)
    ensures Resolve(env, sh, name, qtype, depth).sh.now == sh.now
    decreases MAX_DEPTH + 1 - depth
  {
    hide CacheKey, NormalizeTtl, NegativeTtl, MinTtl, Ask, Put;
    if FollowsAlias(env, sh, name, qtype, depth) {
      var asked := Ask(env, sh.wire, sh.now, name, qtype, 0);
      ResolveKeepsTime(env, Shared(sh.now, Purge(sh.cache, CacheKey(name, qtype), sh.now), asked.wire),
                       Target(FirstCname(asked.reply.answer).value), qtype, depth + 1);
    }
  }

  /** The key holds a negative entry that lives for five minutes to an hour. */
  predicate Negative(cache: Cache, key: string, now: nat) {
    key in cache && cache[key].rrs == [] && now + 300 <= cache[key].expire <= now + 3600
  }

  /** What a request leaves in the cache when it does not succeed. */
  ghost predicate LeavesFailure(before: Cache, now: nat, name: string, qtype: uint16, o: Outcome) {
    var key := CacheKey(End(name, o.answers), qtype);
    (o.rcode == SERV_FAIL && OnlyAt(before, o.sh.cache, None)) ||
    (o.rcode == NX_DOMAIN && OnlyAt(before, o.sh.cache, Some(key)) && Negative(o.sh.cache, key, now))
  }

  lemma LeavesLonger(before: Cache, purged: Cache, now: nat, name: string, cname: RR, qtype: uint16, o: Outcome,
      longer: Outcome)
    requires LeavesFailure(purged, now, Target(cname), qtype, o) && longer == o.(answers := [cname] + o.answers)
    requires forall k :: k in purged ==> k in before && purged[k] == before[k]
    ensures LeavesFailure(before, now, name, qtype, longer)
  {
    hide CacheKey;
    assert End(name, longer.answers) == End(Target(cname), o.answers);
  }

  /** After a server failure nothing in the cache is new, and after a missing name one negative entry
      is, for the name at the end of the aliases. */
  lemma {:induction false} FailureStores(env: Env, sh: Shared, name: string, qtype: uint16, depth: nat)
    requires Resolve(env, sh, name, qtype, depth).rcode != SUCCESS
    ensures LeavesFailure(sh.cache, sh.now, name, qtype, Resolve(env, sh, name, qtype, depth))
    decreases MAX_DEPTH + 1 - depth
  {
    hide CacheKey, NormalizeTtl, NegativeTtl, MinTtl, Ask;
    AskBounds(env, sh.wire, sh.now, name, qtype);
    if FollowsAlias(env, sh, name, qtype, depth) {
      hide Resolve, LeavesFailure;
      AliasOutcome(env, sh, name, qtype, depth);
      var asked := Ask(env, sh.wire, sh.now, name, qtype, 0);
      var cname := FirstCname(asked.reply.answer).value;
      var purged := Purge(sh.cache, CacheKey(name, qtype), sh.now);
      FailureStores(env, Shared(sh.now, purged, asked.wire), Target(cname), qtype, depth + 1);
      LeavesLonger(sh.cache, purged, sh.now, name, cname, qtype, Behind(env, sh, name, qtype, depth),
          Resolve(env, sh, name, qtype, depth));
    }
  }

  /** What a request that missed the cache leaves there for its own name: after success its records
      that can be packed, if there were any; after a missing name a negative entry, if that name is
      its own; and otherwise nothing. */
  lemma {:induction false} StoredAfterMiss(env: Env, sh: Shared, name: string, qtype: uint16, depth: nat)
    requires depth <= MAX_DEPTH && Lookup(sh.cache, CacheKey(name, qtype), sh.now).None?
    ensures var o := Resolve(env, sh, name, qtype, depth);
            var key := CacheKey(name, qtype);
            if o.rcode == SUCCESS && o.answers != [] then
              key in o.sh.cache &&
              o.sh.cache[key] == Entry(sh.now + NormalizeTtl(MinTtl(o.answers)), Kept(env.codec, o.answers))
            else if o.rcode == NX_DOMAIN && o.answers == [] then
              key in o.sh.cache &&
              o.sh.cache[key] == Entry(sh.now + NormalizeTtl(NegativeTtl(env.timeout,
                  Ask(env, sh.wire, sh.now, name, qtype, 0).reply.authority)), [])
            else if o.rcode == NX_DOMAIN && End(name, o.answers) == name then
              Negative(o.sh.cache, key, sh.now)
            else
              key !in o.sh.cache
  {
    hide CacheKey, NormalizeTtl, NegativeTtl, MinTtl, Ask, Kept;
    assert Kept(env.codec, []) == [] by { KeptNone(env.codec); }
    AskBounds(env, sh.wire, sh.now, name, qtype);
    if FollowsAlias(env, sh, name, qtype, depth) {
      StoredBehindAlias(env, sh, name, qtype, depth);
    }
  }

  lemma StoredBehindAlias(env: Env, sh: Shared, name: string, qtype: uint16, depth: nat)
    requires FollowsAlias(env, sh, name, qtype, depth)
    ensures var o := Resolve(env, sh, name, qtype, depth);
            var key := CacheKey(name, qtype);
            o.answers != [] &&
            if o.rcode == SUCCESS then
              key in o.sh.cache &&
              o.sh.cache[key] == Entry(sh.now + NormalizeTtl(MinTtl(o.answers)), Kept(env.codec, o.answers))
            else if o.rcode == NX_DOMAIN && End(name, o.answers) == name then
              Negative(o.sh.cache, key, sh.now)
            else
              key !in o.sh.cache
  {
    hide CacheKey, NormalizeTtl, MinTtl, Ask, Kept, Resolve;
    AliasOutcome(env, sh, name, qtype, depth);
    var asked := Ask(env, sh.wire, sh.now, name, qtype, 0);
    var cname := FirstCname(asked.reply.answer).value;
    var sh2 := Shared(sh.now, Purge(sh.cache, CacheKey(name, qtype), sh.now), asked.wire);
    var rest := Behind(env, sh, name, qtype, depth);
    ResolveKeepsTime(env, sh2, Target(cname), qtype, depth + 1);
    if rest.rcode != SUCCESS {
      FailureStores(env, sh2, Target(cname), qtype, depth + 1);
      var last := End(Target(cname), rest.answers);
      assert End(name, [cname] + rest.answers) == last;
      if CacheKey(last, qtype) == CacheKey(name, qtype) {
        CacheKeyInjective(last, qtype, name, qtype);
      }
    }
  }

  /** A name answered once is answered again for five minutes from the cache alone: the same records
      as far as they can be packed, no exchange, and success even where the first answer was that the
      name does not exist. */
  lemma {:induction false} RepeatFromCache(env: Env, sh: Shared, name: string, qtype: uint16, depth: nat, later: nat,
      again: nat)
    requires depth <= MAX_DEPTH && again <= MAX_DEPTH
    requires Lookup(sh.cache, CacheKey(name, qtype), sh.now).None?
    requires sh.now <= later <= sh.now + 300
    requires var o := Resolve(env, sh, name, qtype, depth);
             (o.rcode == SUCCESS && o.answers != []) || (o.rcode == NX_DOMAIN && o.answers == [])
    ensures var o := Resolve(env, sh, name, qtype, depth);
            Resolve(env, o.sh.(now := later), name, qtype, again) ==
              Outcome(o.sh.(now := later), Kept(env.codec, o.answers), SUCCESS)
  {
    hide CacheKey, MinTtl, Kept, Resolve;
    KeptNone(env.codec);
    StoredAfterMiss(env, sh, name, qtype, depth);
    var o := Resolve(env, sh, name, qtype, depth);
    AnsweredByEntry(env, o.sh.(now := later), name, qtype, again);
  }

  lemma AnsweredByEntry(env: Env, sh: Shared, name: string, qtype: uint16, depth: nat)
    requires depth <= MAX_DEPTH && CacheKey(name, qtype) in sh.cache && sh.now <= sh.cache[CacheKey(name, qtype)].expire
    ensures Resolve(env, sh, name, qtype, depth) == Outcome(sh, sh.cache[CacheKey(name, qtype)].rrs, SUCCESS)
  {
    hide CacheKey;
  }

  /** The network as seen by the resolver: every exchange is recorded. */
  class Upstream {
    const net: Network
    var wire: seq<Exchange>

    constructor (net: Network)
      ensures this.net == net && wire == []
    {
      this.net, wire := net, [];
    }

    method Query(e: Exchange) returns (reply: Reply)
      modifies this
      ensures wire == old(wire) + [e] && reply == net(|old(wire)|, e)
    {
      reply := net(|wire|, e);
      wire := wire + [e];
    }
  }

  class Handler {
    const dnsCache: DnsCache
    const upstream: Upstream
    const configured: seq<string>
    const timeout: int
    const parse: UrlScheme

    constructor (dnsCache: DnsCache, upstream: Upstream, configured: seq<string>, timeout: int, parse: UrlScheme)
      ensures this.dnsCache == dnsCache && this.upstream == upstream && this.configured == configured
      ensures this.timeout == timeout && this.parse == parse
    {
      this.dnsCache, this.upstream, this.configured, this.timeout, this.parse := dnsCache, upstream, configured,
          timeout, parse;
    }

    function Environment(): (env: Env)
      ensures env.net == upstream.net && env.servers == ExchangeSort(parse, configured)
      ensures env.timeout == timeout && env.codec == dnsCache.codec
    {
      Env(upstream.net, ExchangeSort(parse, configured), timeout, dnsCache.codec)
    }

    ghost function View(now: nat): Shared
      requires dnsCache.Valid()
      reads dnsCache, upstream
    {
      Shared(now, dnsCache.View(), upstream.wire)
    }

    method CacheAnswers(domain: string, qtype: uint16, answers: seq<RR>, now: Seconds)
      requires dnsCache.Valid()
      modifies dnsCache
      ensures dnsCache.Valid() && View(now) == CacheResponse(Environment(), old(View(now)), domain, qtype, answers)
    {
      if |answers| == 0 {
        return;
      }
      var ttl := answers[0].ttl;
      for i := 0 to |answers|
        invariant ttl == if i == 0 then answers[0].ttl else MinTtl(answers[..i])
      {
        assert answers[..i + 1][..i] == answers[..i];
        if answers[i].ttl < ttl {
          ttl := answers[i].ttl;
        }
      }
      assert answers[..|answers|] == answers;
      var effective := NormalizeTtl(ttl);
      dnsCache.Set(CacheKey(domain, qtype), answers, effective, now);
    }

    /** The loop over the servers. */
    method AskServers(domain: string, qtype: uint16, now: Seconds) returns (response: Reply)
      requires dnsCache.Valid()
      modifies upstream
      ensures Ask(Environment(), old(upstream.wire), now, domain, qtype, 0) == Asked(response, upstream.wire)
      ensures response.Reply? ==> Usable(response)
      ensures forall b: nat :: FirstBest(parse, configured, 0, |configured|, b) ==>
                |upstream.wire| > |old(upstream.wire)| &&
                upstream.wire[|old(upstream.wire)|] == Exchange(now, configured[b], domain, qtype)
    {
      hide FirstBest;
      var sorted := SortServers(parse, configured);
      ghost var env := Environment();
      response := NoReply;
      for i := 0 to sorted.Length
        invariant sorted[..] == env.servers && fresh(sorted)
        invariant Ask(env, upstream.wire, now, domain, qtype, i) == Ask(env, old(upstream.wire), now, domain, qtype, 0)
        invariant response == NoReply
      {
        assert sorted[i] == env.servers[i];
        response := upstream.Query(Exchange(now, sorted[i], domain, qtype));
        if Usable(response) {
          FirstOfAll(parse, configured, env, old(upstream.wire), now, domain, qtype);
          return;
        }
        response := NoReply;
      }
      FirstOfAll(parse, configured, env, old(upstream.wire), now, domain, qtype);
    }

    method Query(domain: string, qtype: uint16, depth: nat, now: Seconds) returns (answers: seq<RR>, rcode: nat)
      requires dnsCache.Valid()
      modifies dnsCache, upstream
      ensures dnsCache.Valid()
      ensures Outcome(View(now), answers, rcode) == Resolve(Environment(), old(View(now)), domain, qtype, depth)
      decreases MAX_DEPTH + 1 - depth
    {
      hide DecodeAll, Written, Decoded, ExchangeSort, NormalizeTtl, CacheKey, Put, MinTtl, NegativeTtl, Ask;
      if depth > MAX_DEPTH {
        return [], SERV_FAIL;
      }
      var cached := dnsCache.Get(CacheKey(domain, qtype), now);
      if cached.Some? {
        return cached.value, SUCCESS;
      }
      var response := AskServers(domain, qtype, now);
      if response.NoReply? {
        return [], SERV_FAIL;
      }
      if response.rcode == NX_DOMAIN {
        var effective := NormalizeTtl(NegativeTtl(timeout, response.authority));
        dnsCache.Set(CacheKey(domain, qtype), [], effective, now);
        return [], NX_DOMAIN;
      }
      ghost var asked := View(now);
      var finalAnswers: seq<RR> := [];
      for i := 0 to |response.answer|
        invariant finalAnswers == response.answer[..i]
        invariant FirstCname(response.answer) == FirstCname(response.answer[i..])
        invariant dnsCache.Valid() && View(now) == asked
      {
        var answer := response.answer[i];
        assert response.answer[i..][1..] == response.answer[i + 1..];
        if answer.data.Cname? {
          var rest, code := Query(answer.data.target, qtype, depth + 1, now);
          finalAnswers := [answer] + rest;
          if code == SUCCESS {
            CacheAnswers(domain, qtype, finalAnswers, now);
          }
          return finalAnswers, code;
        }
        finalAnswers := finalAnswers + [answer];
      }
      assert finalAnswers == response.answer;
      CacheAnswers(domain, qtype, finalAnswers, now);
      return finalAnswers, SUCCESS;
    }
  }
}
