/** Requests resolved side by side: the steps of many requests interleave on one cache, one clock
    and one network, and entries may be evicted at any time. */
module ResolverRuns {
  import opened Records
  import opened CacheCodec
  import opened Resolver

  /** What a request is about to do. */
  datatype Phase = LookingUp | Asking(next: nat) | Returning(answers: seq<RR>, rcode: nat)

  /** A request in progress: the question, when it came in, and the CNAMEs that lead to the name
      being resolved, the last one first. */
  datatype Task = Task(name: string, qtype: uint16, start: nat, chain: seq<RR>, phase: Phase)

  function Reached(name: string, chain: seq<RR>): string {
    if chain == [] then name else Target(chain[0])
  }

  /** The name being resolved. */
  function Current(t: Task): string {
    Reached(t.name, t.chain)
  }

  predicate Done(t: Task) {
    t.chain == [] && t.phase.Returning?
  }

  function Receive(env: Env, sh: Shared, t: Task, reply: Reply): (Shared, Task)
    requires reply.Reply?
  {
    if reply.rcode == NX_DOMAIN then
      (CacheNegative(env, sh, Current(t), t.qtype, reply.authority), t.(phase := Returning([], NX_DOMAIN)))
    else
      match FirstCname(reply.answer)
      case None =>
        (CacheResponse(env, sh, Current(t), t.qtype, reply.answer), t.(phase := Returning(reply.answer, SUCCESS)))
      case Some(cname) => (sh, t.(chain := [cname] + t.chain, phase := LookingUp))
  }

  /** One step of one request: a cache lookup, an exchange with one server, or the return to the
      alias that asked for the current name. */
  function Advance(env: Env, sh: Shared, t: Task): (Shared, Task) {
    match t.phase
    case LookingUp =>
      if |t.chain| > MAX_DEPTH then (sh, t.(phase := Returning([], SERV_FAIL)))
      else
        var key := CacheKey(Current(t), t.qtype);
        var hit := Lookup(sh.cache, key, sh.now);
        (sh.(cache := Purge(sh.cache, key, sh.now)),
            t.(phase := if hit.Some? then Returning(hit.value, SUCCESS) else Asking(0)))
    case Asking(i) =>
      if i >= |env.servers| then (sh, t.(phase := Returning([], SERV_FAIL)))
      else
        var e := Exchange(sh.now, env.servers[i], Current(t), t.qtype);
        var reply := env.net(|sh.wire|, e);
        var sh' := sh.(wire := sh.wire + [e]);
        if Usable(reply) then Receive(env, sh', t, reply) else (sh', t.(phase := Asking(i + 1)))
    case Returning(answers, rcode) =>
      if t.chain == [] then (sh, t)
      else
        var longer := [t.chain[0]] + answers;
        var up := t.(chain := t.chain[1..], phase := Returning(longer, rcode));
        (if rcode == SUCCESS then CacheResponse(env, sh, Current(up), t.qtype, longer) else sh, up)
  }

  datatype State = State(sh: Shared, tasks: map<nat, Task>)

  datatype Event =
    | Elapse(seconds: nat)
    | Evict(key: string)
    | Begin(id: nat, name: string, qtype: uint16)
    | Step(id: nat)
    | Finish(id: nat)

  const IDLE: State := State(Shared(0, map[], []), map[])

  /** The effect of an event; one that is not possible changes nothing. No request is left
      unfinished for more than `limit` seconds. */
  ghost function Next(env: Env, limit: nat, s: State, ev: Event): State {
    match ev
    case Elapse(d) =>
      if forall id :: id in s.tasks ==> s.sh.now + d <= s.tasks[id].start + limit
      then s.(sh := s.sh.(now := s.sh.now + d))
      else s
    case Evict(key) => s.(sh := s.sh.(cache := s.sh.cache - {key}))
    case Begin(id, name, qtype) =>
      if id in s.tasks then s else s.(tasks := s.tasks[id := Task(name, qtype, s.sh.now, [], LookingUp)])
    case Step(id) =>
      if id !in s.tasks then s
      else
        var (sh, t) := Advance(env, s.sh, s.tasks[id]);
        State(sh, s.tasks[id := t])
    case Finish(id) =>
      if id in s.tasks && Done(s.tasks[id]) then s.(tasks := s.tasks - {id}) else s
  }

  ghost function Run(env: Env, limit: nat, s: State, evs: seq<Event>): State {
    if evs == [] then s else Next(env, limit, Run(env, limit, s, evs[..|evs| - 1]), evs[|evs| - 1])
  }

  // A request that runs alone.

  function AdvanceBy(env: Env, sh: Shared, t: Task, n: nat): (Shared, Task) {
    if n == 0 then (sh, t)
    else
      var (sh', t') := AdvanceBy(env, sh, t, n - 1);
      Advance(env, sh', t')
  }

  lemma {:induction false} AdvanceMore(env: Env, sh: Shared, t: Task, m: nat, n: nat)
    ensures AdvanceBy(env, sh, t, m + n) ==
            AdvanceBy(env, AdvanceBy(env, sh, t, m).0, AdvanceBy(env, sh, t, m).1, n)
    decreases n
  {
    hide Advance;
    if n > 0 {
      AdvanceMore(env, sh, t, m, n - 1);
    }
  }

  lemma AdvanceOnce(env: Env, sh: Shared, t: Task)
    ensures AdvanceBy(env, sh, t, 1) == Advance(env, sh, t)
  {
    hide Advance;
    assert AdvanceBy(env, sh, t, 0) == (sh, t);
  }

  lemma {:induction false} AskingAlone(env: Env, sh: Shared, t: Task, i: nat) returns (n: nat)
    requires t.phase == Asking(i) && i <= |env.servers|
    ensures var asked := Ask(env, sh.wire, sh.now, Current(t), t.qtype, i);
            var sh' := sh.(wire := asked.wire);
            AdvanceBy(env, sh, t, n) ==
              if asked.reply.NoReply? then (sh', t.(phase := Returning([], SERV_FAIL)))
              else Receive(env, sh', t, asked.reply)
    decreases |env.servers| - i
  {
    hide Receive, AdvanceBy;
    AdvanceOnce(env, sh, t);
    n := 1;
    if i < |env.servers| {
      var e := Exchange(sh.now, env.servers[i], Current(t), t.qtype);
      if !Usable(env.net(|sh.wire|, e)) {
        var sh', t' := sh.(wire := sh.wire + [e]), t.(phase := Asking(i + 1));
        var m := AskingAlone(env, sh', t', i + 1);
        AdvanceMore(env, sh, t, 1, m);
        ReceiveIgnoresPhase(env, t, t');
        n := 1 + m;
      }
    }
  }

  lemma ReceiveIgnoresPhase(env: Env, t: Task, t': Task)
    requires t' == t.(phase := t'.phase)
    ensures forall s, r: Reply :: r.Reply? ==> Receive(env, s, t', r) == Receive(env, s, t, r)
  {
  }

  /** After a usable reply: the alias it names is resolved alone and its answer brought back. */
  lemma {:induction false} ReplyAlone(env: Env, sh: Shared, t: Task, reply: Reply) returns (n: nat)
    requires Usable(reply) && |t.chain| <= MAX_DEPTH
    ensures var (sh1, t1) := Receive(env, sh, t, reply);
            AdvanceBy(env, sh1, t1, n) ==
              if reply.rcode == NX_DOMAIN then
                (CacheNegative(env, sh, Current(t), t.qtype, reply.authority), t.(phase := Returning([], NX_DOMAIN)))
              else if FirstCname(reply.answer).None? then
                (CacheResponse(env, sh, Current(t), t.qtype, reply.answer),
                 t.(phase := Returning(reply.answer, SUCCESS)))
              else
                var cname := FirstCname(reply.answer).value;
                var o := Resolve(env, sh, Target(cname), t.qtype, |t.chain| + 1);
                var answers := [cname] + o.answers;
                (if o.rcode == SUCCESS then CacheResponse(env, o.sh, Current(t), t.qtype, answers) else o.sh,
                 t.(phase := Returning(answers, o.rcode)))
    decreases MAX_DEPTH + 1 - |t.chain|, 0
  {
    hide CacheNegative, CacheResponse, Resolve;
    n := 0;
    if reply.rcode == SUCCESS && FirstCname(reply.answer).Some? {
      hide AdvanceBy;
      var cname := FirstCname(reply.answer).value;
      var t1 := t.(chain := [cname] + t.chain, phase := LookingUp);
      n := AloneIsResolve(env, sh, t1);
      var o := Resolve(env, sh, Target(cname), t.qtype, |t.chain| + 1);
      var back := t1.(phase := Returning(o.answers, o.rcode));
      AdvanceMore(env, sh, t1, n, 1);
      AdvanceOnce(env, o.sh, back);
      assert back.chain[1..] == t.chain;
      n := n + 1;
    }
  }

  /** Left to itself, a request about to look up a name comes to return exactly what the recursive
      resolver returns for that name at that depth, with the same effect on the shared state. */
  lemma {:induction false} AloneIsResolve(env: Env, sh: Shared, t: Task) returns (n: nat)
    requires t.phase == LookingUp
    ensures var o := Resolve(env, sh, Current(t), t.qtype, |t.chain|);
            AdvanceBy(env, sh, t, n) == (o.sh, t.(phase := Returning(o.answers, o.rcode)))
    decreases MAX_DEPTH + 1 - |t.chain|, 1
  {
    hide CacheNegative, CacheResponse, CacheKey, Lookup, Purge, Ask, AdvanceBy, Receive;
    AdvanceOnce(env, sh, t);
    n := 1;
    var (sh1, t1) := Advance(env, sh, t);
    if t1.phase.Asking? {
      var asked := Ask(env, sh1.wire, sh1.now, Current(t), t.qtype, 0);
      var sh2 := sh1.(wire := asked.wire);
      var m := AskingAlone(env, sh1, t1, 0);
      AdvanceMore(env, sh, t, 1, m);
      n := 1 + m;
      if asked.reply.Reply? {
        AskedUsable(env, sh1.wire, sh1.now, Current(t), t.qtype, 0);
        var k := ReplyAlone(env, sh2, t1, asked.reply);
        AdvanceMore(env, sh, t, n, k);
        n := n + k;
      }
    }
  }

  lemma AskedUsable(env: Env, wire: seq<Exchange>, now: nat, name: string, qtype: uint16, i: nat)
    requires i <= |env.servers| && Ask(env, wire, now, name, qtype, i).reply.Reply?
    ensures Usable(Ask(env, wire, now, name, qtype, i).reply)
  {
    AskFacts(env, wire, now, name, qtype, i);
  }

  /** Runs compose. */
  lemma {:induction false} RunConcat(env: Env, limit: nat, s: State, a: seq<Event>, b: seq<Event>)
    ensures Run(env, limit, s, a + b) == Run(env, limit, Run(env, limit, s, a), b)
    decreases |b|
  {
    hide Next;
    if b == [] {
      assert a + b == a;
    } else {
      assert (a + b)[..|a + b| - 1] == a + b[..|b| - 1];
      RunConcat(env, limit, s, a, b[..|b| - 1]);
    }
  }

  lemma {:induction false} StepsAlone(env: Env, limit: nat, s: State, id: nat, n: nat)
    requires id in s.tasks
    ensures var (sh, t) := AdvanceBy(env, s.sh, s.tasks[id], n);
            Run(env, limit, s, seq(n, _ => Step(id))) == State(sh, s.tasks[id := t])
  {
    hide Advance;
    var evs := seq(n, _ => Step(id));
    if n == 0 {
      assert s.tasks[id := s.tasks[id]] == s.tasks;
    } else {
      assert evs[..n - 1] == seq(n - 1, _ => Step(id));
      StepsAlone(env, limit, s, id, n - 1);
    }
  }

  lemma RunOne(env: Env, limit: nat, s: State, ev: Event)
    ensures Run(env, limit, s, [ev]) == Next(env, limit, s, ev)
  {
    hide Next;
    assert [ev][..0] == [];
    assert Run(env, limit, s, []) == s;
  }

  /** One call of the recursive resolver is a run: the request begins, makes its steps, holds the
      call's answer and finishes, leaving the call's effect on the shared state. */
  lemma {:induction false} RequestIsRun(env: Env, limit: nat, s: State, id: nat, name: string,
      qtype: uint16) returns (evs: seq<Event>)
    requires id !in s.tasks
    ensures var o := Resolve(env, s.sh, name, qtype, 0);
            var t := Task(name, qtype, s.sh.now, [], Returning(o.answers, o.rcode));
            Run(env, limit, s, evs) == State(o.sh, s.tasks[id := t]) &&
            Run(env, limit, s, evs + [Finish(id)]) == State(o.sh, s.tasks)
  {
    hide Resolve, Advance, Run;
    var t := Task(name, qtype, s.sh.now, [], LookingUp);
    var s1 := Next(env, limit, s, Begin(id, name, qtype));
    var n := AloneIsResolve(env, s.sh, t);
    StepsAlone(env, limit, s1, id, n);
    RunOne(env, limit, s, Begin(id, name, qtype));
    evs := [Begin(id, name, qtype)] + seq(n, _ => Step(id));
    RunConcat(env, limit, s, [Begin(id, name, qtype)], seq(n, _ => Step(id)));
    var s2 := Run(env, limit, s, evs);
    assert s2.tasks == s.tasks[id := s2.tasks[id]];
    RunConcat(env, limit, s, evs, [Finish(id)]);
    RunOne(env, limit, s2, Finish(id));
    assert s2.tasks - {id} == s.tasks;
  }

  // Every request comes to an end.

  /** The steps a request may still take. */
  function Remaining(env: Env, t: Task): int {
    var n, level := |t.chain|, |env.servers| + 3;
    match t.phase
    case LookingUp => (MAX_DEPTH + 1 - n) * level + n + 1
    case Asking(i) => |env.servers| - i + 1 + (MAX_DEPTH - n) * level + n + 2
    case Returning(_, _) => n
  }

  ghost predicate InBounds(env: Env, t: Task) {
    |t.chain| <= MAX_DEPTH + 1 && (t.phase.Asking? ==> |t.chain| <= MAX_DEPTH && t.phase.next <= |env.servers|)
  }

  lemma {:induction false} AdvanceEnds(env: Env, sh: Shared, t: Task)
    requires InBounds(env, t)
    ensures var t' := Advance(env, sh, t).1;
            InBounds(env, t') && 0 <= Remaining(env, t') && (Done(t) ==> t' == t) &&
            (!Done(t) ==> Remaining(env, t') < Remaining(env, t))
  {
    hide CacheKey, Lookup, Purge, CacheNegative, CacheResponse;
    var n, level := |t.chain|, |env.servers| + 3;
    assert (MAX_DEPTH + 1 - n) * level == (MAX_DEPTH - n) * level + level;
    if n <= MAX_DEPTH {
      Products(MAX_DEPTH - n, level);
    }
    if n < MAX_DEPTH {
      Products(MAX_DEPTH - n - 1, level);
    }
  }

  lemma Products(a: nat, b: nat)
    ensures a * b >= 0
  {
  }

  function StepsOf(evs: seq<Event>, id: nat): nat {
    if evs == [] then 0 else StepsOf(evs[..|evs| - 1], id) + if evs[|evs| - 1] == Step(id) then 1 else 0
  }

  /** However requests interleave, one that is given the steps it may take has ended: eleven rounds
      over the servers, and a few steps more, from its beginning. */
  lemma {:induction false} RequestsEnd(env: Env, limit: nat, s: State, evs: seq<Event>, id: nat)
    requires id in s.tasks && InBounds(env, s.tasks[id]) && Finish(id) !in evs
    ensures var s' := Run(env, limit, s, evs);
            id in s'.tasks && InBounds(env, s'.tasks[id]) &&
            (!Done(s'.tasks[id]) ==> Remaining(env, s'.tasks[id]) + StepsOf(evs, id) <= Remaining(env, s.tasks[id])) &&
            (StepsOf(evs, id) >= Remaining(env, s.tasks[id]) ==> Done(s'.tasks[id]))
    decreases |evs|
  {
    hide Advance, Remaining;
    RemainingSome(env, s.tasks[id]);
    if evs != [] {
      var front, last := evs[..|evs| - 1], evs[|evs| - 1];
      RequestsEnd(env, limit, s, front, id);
      var before := Run(env, limit, s, front);
      AdvanceEnds(env, before.sh, before.tasks[id]);
      RemainingSome(env, before.tasks[id]);
      RemainingSome(env, Run(env, limit, s, evs).tasks[id]);
    }
  }

  lemma RemainingSome(env: Env, t: Task)
    requires InBounds(env, t)
    ensures Remaining(env, t) >= if Done(t) then 0 else 1
  {
    Products(MAX_DEPTH + 1 - |t.chain|, |env.servers| + 3);
    if |t.chain| <= MAX_DEPTH {
      Products(MAX_DEPTH - |t.chain|, |env.servers| + 3);
    }
  }
}
