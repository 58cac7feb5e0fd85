/** Serving a message: every question is resolved, and the addresses found for names that match a
    rule list are inserted into that list's ipset. */
module Routing {
  import opened Text
  import opened Options
  import opened Records
  import opened CacheCodec
  import opened Resolver
  import opened Servers
  import opened DomainMatch
  import opened RuleConfig
  import opened RuleIndex
  import opened IndexRuns

  datatype Question = Question(name: string, qtype: uint16)

  /** One address handed to an ipset. */
  datatype Insertion = Insertion(setName: string, octets: seq<byte>, timeout: uint32)

  /** What routing depends on: the key sets, the lists, the blocked names if there is a blocklist,
      and how the text of a record is parsed. */
  datatype Rulebook = Rulebook(
    keys: set<string>,
    listKeys: map<nat, set<string>>,
    lists: seq<ListConfig>,
    blocked: Option<set<string>>,
    parse: string -> Option<RR>)

  predicate Blocked(book: Rulebook, name: string) {
    book.blocked.Some? && TrimDot(name) in book.blocked.value
  }

  /** The answer to a blocked question. */
  function BlockedAnswer(book: Rulebook, name: string): seq<RR> {
    var rr := book.parse(name + " A 0.0.0.0");
    if rr.Some? then [rr.value] else []
  }

  /** With a blocklist a question is blocked if its name, with or without the dot at the end, is one of
      the blocked ones. */
  lemma {:induction false} BlockedExactly(book: Rulebook, q: string)
    requires book.blocked.Some?
    ensures Blocked(book, q + ".") <==> q in book.blocked.value
    ensures q == "" || q[|q| - 1] != '.' ==> (Blocked(book, q) <==> q in book.blocked.value)
  {
    TrimDotExact(q);
  }

  ghost predicate InListKeys(book: Rulebook, name: string, i: nat) {
    i in book.listKeys && FastMatch(book.listKeys[i], TrimDot(name))
  }

  ghost predicate PassesGate(book: Rulebook, name: string) {
    FastMatch(book.keys, TrimDot(name)) || exists i {:trigger InListKeys(book, name, i)} :: InListKeys(book, name, i)
  }

  /** The insertions of one record into one list that the name matches. */
  function OneInsertion(rr: RR, list: ListConfig): seq<Insertion> {
    match rr.data
    case A(octets) => [Insertion(list.name, octets, NormalizeTtl(rr.ttl))]
    case AAAA(octets) => if list.enableIPv6 then [Insertion(list.name + "6", octets, NormalizeTtl(rr.ttl))] else []
    case _ => []
  }

  /** The insertions of one record into the first n lists. */
  ghost function RecordLog(book: Rulebook, name: string, rr: RR, n: nat): seq<Insertion>
    requires n <= |book.lists|
  {
    if n == 0 then []
    else RecordLog(book, name, rr, n - 1) + if InListKeys(book, name, n - 1) then OneInsertion(rr, book.lists[n - 1])
        else []
  }

  ghost function AnswerLog(book: Rulebook, name: string, answers: seq<RR>): seq<Insertion> {
    if answers == [] then []
    else AnswerLog(book, name, answers[..|answers| - 1]) + RecordLog(book, name, answers[|answers| - 1], |book.lists|)
  }

  /** A message in the making: the shared state, the reply so far and the insertions made. */
  datatype Served = Served(sh: Shared, answer: seq<RR>, rcode: nat, log: seq<Insertion>)

  ghost function ServeOne(env: Env, book: Rulebook, st: Served, q: Question, gated: bool): Served {
    if Blocked(book, q.name) then st.(answer := st.answer + BlockedAnswer(book, q.name))
    else
      var o := Resolve(env, st.sh, q.name, q.qtype, 0);
      Served(o.sh, st.answer + o.answers, if o.rcode != SUCCESS then o.rcode else st.rcode,
             st.log + if gated && !PassesGate(book, q.name) then [] else AnswerLog(book, q.name, o.answers))
  }

  ghost function Serve(env: Env, book: Rulebook, st: Served, questions: seq<Question>, gated: bool): Served {
    if questions == [] then st
    else ServeOne(env, book, Serve(env, book, st, questions[..|questions| - 1], gated), questions[|questions| - 1],
        gated)
  }

  lemma {:induction false} ClosedGateLogsNothing(book: Rulebook, name: string, rr: RR, n: nat)
    requires n <= |book.lists| && !PassesGate(book, name)
    ensures RecordLog(book, name, rr, n) == []
  {
    hide OneInsertion;
    if n > 0 {
      ClosedGateLogsNothing(book, name, rr, n - 1);
      assert !InListKeys(book, name, n - 1);
    }
  }

  lemma {:induction false} ClosedGateLogsNoAnswer(book: Rulebook, name: string, answers: seq<RR>)
    requires !PassesGate(book, name)
    ensures AnswerLog(book, name, answers) == []
  {
    hide RecordLog, PassesGate;
    if answers != [] {
      ClosedGateLogsNoAnswer(book, name, answers[..|answers| - 1]);
      ClosedGateLogsNothing(book, name, answers[|answers| - 1], |book.lists|);
    }
  }

  /** The test made before processing answers saves work and loses nothing: without it every message
      is served the same, insertions included. */
  lemma {:induction false} GateLosesNothing(env: Env, book: Rulebook, st: Served, questions: seq<Question>)
    ensures Serve(env, book, st, questions, true) == Serve(env, book, st, questions, false)
  {
    hide Resolve, AnswerLog, PassesGate;
    if questions != [] {
      var q := questions[|questions| - 1];
      GateLosesNothing(env, book, st, questions[..|questions| - 1]);
      var before := Serve(env, book, st, questions[..|questions| - 1], true);
      if !PassesGate(book, q.name) {
        ClosedGateLogsNoAnswer(book, q.name, Resolve(env, before.sh, q.name, q.qtype, 0).answers);
      }
    }
  }

  /** Why an insertion is made: the record is an address and the list takes it. */
  ghost predicate Justifies(rr: RR, list: ListConfig, x: Insertion) {
    x.timeout == NormalizeTtl(rr.ttl) &&
    ((rr.data == A(x.octets) && x.setName == list.name) ||
     (rr.data == AAAA(x.octets) && list.enableIPv6 && x.setName == list.name + "6"))
  }

  lemma {:induction false} RecordLogExact(book: Rulebook, name: string, rr: RR, n: nat, x: Insertion)
    requires n <= |book.lists|
    ensures x in RecordLog(book, name, rr, n) <==>
            exists j: nat :: j < n && InListKeys(book, name, j) && Justifies(rr, book.lists[j], x)
  {
    hide InListKeys, NormalizeTtl;
    if n > 0 {
      RecordLogExact(book, name, rr, n - 1, x);
      assert x in OneInsertion(rr, book.lists[n - 1]) <==> Justifies(rr, book.lists[n - 1], x);
    }
  }

  lemma {:induction false} AnswerLogExact(book: Rulebook, name: string, answers: seq<RR>, x: Insertion)
    ensures x in AnswerLog(book, name, answers) <==>
            exists k: nat, j: nat :: k < |answers| && j < |book.lists| && InListKeys(book, name, j) &&
                Justifies(answers[k], book.lists[j], x)
  {
    hide InListKeys, Justifies, RecordLog;
    if answers != [] {
      var front := answers[..|answers| - 1];
      AnswerLogExact(book, name, front, x);
      RecordLogExact(book, name, answers[|answers| - 1], |book.lists|, x);
      if k: nat, j: nat :|
        k < |answers| && j < |book.lists| && InListKeys(book, name, j) && Justifies(answers[k], book.lists[j], x)
      {
        if k < |front| {
          assert front[k] == answers[k];
        }
      }
      if k: nat, j: nat :|
        k < |front| && j < |book.lists| && InListKeys(book, name, j) && Justifies(front[k], book.lists[j], x)
      {
        assert answers[k] == front[k];
      }
    }
  }

  /** The answers to question i of a message. */
  ghost function AnswersTo(env: Env, book: Rulebook, st: Served, questions: seq<Question>, i: nat): seq<RR>
    requires i < |questions|
  {
    Resolve(env, Serve(env, book, st, questions[..i], false).sh, questions[i].name, questions[i].qtype, 0).answers
  }

  /** Question i of a message makes the insertion x, through answer k and list j. */
  ghost predicate Makes(env: Env, book: Rulebook, st: Served, questions: seq<Question>, i: nat, k: nat, j: nat,
      x: Insertion) {
    i < |questions| && !Blocked(book, questions[i].name) &&
    k < |AnswersTo(env, book, st, questions, i)| && j < |book.lists| &&
    InListKeys(book, questions[i].name, j) && Justifies(AnswersTo(env, book, st, questions, i)[k], book.lists[j], x)
  }

  ghost predicate MadeAt(env: Env, book: Rulebook, st: Served, questions: seq<Question>, i: nat, x: Insertion) {
    exists k: nat, j: nat :: Makes(env, book, st, questions, i, k, j, x)
  }

  /** Some question of the message makes the insertion. */
  ghost predicate Made(env: Env, book: Rulebook, st: Served, questions: seq<Question>, x: Insertion) {
    exists i: nat :: MadeAt(env, book, st, questions, i, x)
  }

  lemma {:induction false} MakesEarlier(env: Env, book: Rulebook, st: Served, questions: seq<Question>, i: nat,
      k: nat, j: nat, x: Insertion)
    requires questions != [] && i < |questions| - 1
    ensures Makes(env, book, st, questions, i, k, j, x) == Makes(env, book, st, questions[..|questions| - 1], i, k, j,
        x)
  {
    hide InListKeys, Justifies, Resolve;
    assert questions[..|questions| - 1][..i] == questions[..i];
  }

  /** The routing log is exact: an insertion is made if and only if some unblocked question has an
      address among its answers and matches a list that takes that kind of address. */
  lemma {:induction false} LogExact(env: Env, book: Rulebook, st: Served, questions: seq<Question>, x: Insertion)
    ensures x in Serve(env, book, st, questions, false).log <==>
            x in st.log || Made(env, book, st, questions, x)
  {
    hide MadeAt, AnswerLog, Blocked, ServeOne;
    if questions != [] {
      LogExact(env, book, st, questions[..|questions| - 1], x);
      LogOfLast(env, book, st, questions, x);
      LastMakes(env, book, st, questions, x);
      MadeSplit(env, book, st, questions, x);
    } else {
      forall i: nat
        ensures !MadeAt(env, book, st, questions, i, x)
      {
        MadeAtIndex(env, book, st, questions, i, x);
      }
    }
  }

  lemma MadeAtIndex(env: Env, book: Rulebook, st: Served, questions: seq<Question>, i: nat, x: Insertion)
    ensures MadeAt(env, book, st, questions, i, x) ==> i < |questions|
  {
    hide InListKeys, Justifies, AnswersTo, Blocked;
  }

  lemma MadeEarlier(env: Env, book: Rulebook, st: Served, questions: seq<Question>, i: nat, x: Insertion)
    requires questions != [] && i < |questions| - 1
    ensures MadeAt(env, book, st, questions, i, x) <==> MadeAt(env, book, st, questions[..|questions| - 1], i, x)
  {
    hide Makes;
    var front := questions[..|questions| - 1];
    if k: nat, j: nat :| Makes(env, book, st, questions, i, k, j, x) {
      MakesEarlier(env, book, st, questions, i, k, j, x);
      assert MadeAt(env, book, st, front, i, x);
    }
    if k: nat, j: nat :| Makes(env, book, st, front, i, k, j, x) {
      MakesEarlier(env, book, st, questions, i, k, j, x);
      assert MadeAt(env, book, st, questions, i, x);
    }
  }

  lemma MadeSplit(env: Env, book: Rulebook, st: Served, questions: seq<Question>, x: Insertion)
    requires questions != []
    ensures Made(env, book, st, questions, x) <==>
            Made(env, book, st, questions[..|questions| - 1], x) || MadeAt(env, book, st, questions, |questions| - 1, x)
  {
    hide MadeAt;
    var front := questions[..|questions| - 1];
    if i: nat :| MadeAt(env, book, st, questions, i, x) {
      MadeAtIndex(env, book, st, questions, i, x);
      if i < |front| {
        MadeEarlier(env, book, st, questions, i, x);
        assert Made(env, book, st, front, x);
      }
    }
    if i: nat :| MadeAt(env, book, st, front, i, x) {
      MadeAtIndex(env, book, st, front, i, x);
      MadeEarlier(env, book, st, questions, i, x);
      assert Made(env, book, st, questions, x);
    }
  }

  lemma LogOfLast(env: Env, book: Rulebook, st: Served, questions: seq<Question>, x: Insertion)
    requires questions != []
    ensures var n := |questions| - 1;
            x in Serve(env, book, st, questions, false).log <==>
            x in Serve(env, book, st, questions[..n], false).log ||
            (!Blocked(book, questions[n].name) &&
                x in AnswerLog(book, questions[n].name, AnswersTo(env, book, st, questions, n)))
  {
    hide Resolve, AnswerLog, PassesGate, Blocked;
  }

  lemma LastMakes(env: Env, book: Rulebook, st: Served, questions: seq<Question>, x: Insertion)
    requires questions != []
    ensures var n := |questions| - 1;
            !Blocked(book, questions[n].name) &&
                x in AnswerLog(book, questions[n].name, AnswersTo(env, book, st, questions, n)) <==>
            MadeAt(env, book, st, questions, n, x)
  {
    hide InListKeys, Justifies, AnswerLog, Blocked;
    var n := |questions| - 1;
    var answers := AnswersTo(env, book, st, questions, n);
    AnswerLogExact(book, questions[n].name, answers, x);
    if !Blocked(book, questions[n].name) {
      if k: nat, j: nat :|
        k < |answers| && j < |book.lists| && InListKeys(book, questions[n].name, j) &&
        Justifies(answers[k], book.lists[j], x)
      {
        assert Makes(env, book, st, questions, n, k, j, x);
      }
    }
  }

  /** The code with which question i of a message was resolved. */
  ghost function CodeOf(env: Env, book: Rulebook, st: Served, questions: seq<Question>, i: nat): nat
    requires i < |questions|
  {
    Resolve(env, Serve(env, book, st, questions[..i], false).sh, questions[i].name, questions[i].qtype, 0).rcode
  }

  /** Question i is not blocked and was not resolved with success. */
  ghost predicate Fails(env: Env, book: Rulebook, st: Served, questions: seq<Question>, i: nat) {
    i < |questions| && !Blocked(book, questions[i].name) && CodeOf(env, book, st, questions, i) != SUCCESS
  }

  lemma FailsEarlier(env: Env, book: Rulebook, st: Served, questions: seq<Question>, i: nat)
    requires i < |questions| - 1
    ensures var front := questions[..|questions| - 1];
            Fails(env, book, st, questions, i) == Fails(env, book, st, front, i) &&
            CodeOf(env, book, st, questions, i) == CodeOf(env, book, st, front, i)
  {
    hide Resolve, Blocked;
    assert questions[..|questions| - 1][..i] == questions[..i];
  }

  /** The code of the reply is that of the last question that fails, and success if and only if no
      question does; blocked questions have no part in it. */
  lemma {:induction false} ReplyCodeExact(env: Env, book: Rulebook, st: Served, questions: seq<Question>)
    requires st.rcode == SUCCESS
    ensures var code := Serve(env, book, st, questions, false).rcode;
            (code == SUCCESS <==> forall i: nat :: !Fails(env, book, st, questions, i)) &&
            (forall i: nat ::
               Fails(env, book, st, questions, i) &&
               (forall m: nat :: i < m ==> !Fails(env, book, st, questions, m)) ==>
                 code == CodeOf(env, book, st, questions, i))
  {
    hide Resolve, Blocked, AnswerLog, PassesGate;
    if questions != [] {
      var n := |questions| - 1;
      var front := questions[..n];
      ReplyCodeExact(env, book, st, front);
      LastCode(env, book, st, questions);
      hide ServeOne, Serve;
      forall i: nat | i < n
        ensures Fails(env, book, st, questions, i) == Fails(env, book, st, front, i)
        ensures CodeOf(env, book, st, questions, i) == CodeOf(env, book, st, front, i)
      {
        FailsEarlier(env, book, st, questions, i);
      }
    }
  }

  lemma LastCode(env: Env, book: Rulebook, st: Served, questions: seq<Question>)
    requires questions != []
    ensures var n := |questions| - 1;
            Serve(env, book, st, questions, false).rcode ==
              if Fails(env, book, st, questions, n) then CodeOf(env, book, st, questions, n)
              else Serve(env, book, st, questions[..n], false).rcode
  {
    hide Resolve, Blocked, AnswerLog, PassesGate;
  }

  function Concat(parts: seq<seq<RR>>): seq<RR> {
    if parts == [] then [] else Concat(parts[..|parts| - 1]) + parts[|parts| - 1]
  }

  /** The part of the reply that question i has: what its resolution returns or, if it is blocked, the
      record written as its name and the address 0.0.0.0. */
  ghost predicate PartOf(env: Env, book: Rulebook, st: Served, questions: seq<Question>, i: nat, part: seq<RR>) {
    i < |questions| &&
    if Blocked(book, questions[i].name) then
      var written := book.parse(questions[i].name + " A 0.0.0.0");
      (written.Some? && part == [written.value]) || (written.None? && part == [])
    else
      part == AnswersTo(env, book, st, questions, i)
  }

  ghost predicate PartsOf(env: Env, book: Rulebook, st: Served, questions: seq<Question>, parts: seq<seq<RR>>) {
    |parts| == |questions| && forall i :: 0 <= i < |parts| ==> PartOf(env, book, st, questions, i, parts[i])
  }

  lemma PartEarlier(env: Env, book: Rulebook, st: Served, questions: seq<Question>, i: nat, part: seq<RR>)
    requires i < |questions| - 1 && PartOf(env, book, st, questions[..|questions| - 1], i, part)
    ensures PartOf(env, book, st, questions, i, part)
  {
    hide Resolve, Blocked;
    assert questions[..|questions| - 1][..i] == questions[..i];
  }

  /** The answer section of a reply is the parts of its questions, in the order of the questions. */
  lemma {:induction false} ReplyExact(env: Env, book: Rulebook, st: Served, questions: seq<Question>,
      gated: bool) returns (parts: seq<seq<RR>>)
    ensures PartsOf(env, book, st, questions, parts)
    ensures Serve(env, book, st, questions, gated).answer == st.answer + Concat(parts)
  {
    hide PartOf, ServeOne;
    GateLosesNothing(env, book, st, questions);
    if questions == [] {
      parts := [];
      assert st.answer + [] == st.answer;
    } else {
      var n := |questions| - 1;
      var front := ReplyExact(env, book, st, questions[..n], false);
      var part := LastPart(env, book, st, questions);
      parts := front + [part];
      assert parts[..n] == front;
      AppendAssoc(st.answer, Concat(front), part);
      forall i | 0 <= i < n
        ensures PartOf(env, book, st, questions, i, parts[i])
      {
        PartEarlier(env, book, st, questions, i, front[i]);
      }
    }
  }

  lemma LastPart(env: Env, book: Rulebook, st: Served, questions: seq<Question>) returns (part: seq<RR>)
    requires questions != []
    ensures PartOf(env, book, st, questions, |questions| - 1, part)
    ensures Serve(env, book, st, questions, false).answer ==
            Serve(env, book, st, questions[..|questions| - 1], false).answer + part
  {
    hide Resolve, Blocked, AnswerLog, PassesGate;
    var n := |questions| - 1;
    part := if Blocked(book, questions[n].name) then BlockedAnswer(book, questions[n].name)
    else AnswersTo(env, book, st, questions, n);
  }

  /** The questions of a message that are not blocked. */
  function Unblocked(book: Rulebook, questions: seq<Question>): seq<Question> {
    if questions == [] then []
    else
      var last := questions[|questions| - 1];
      Unblocked(book, questions[..|questions| - 1]) + if Blocked(book, last.name) then [] else [last]
  }

  /** The records with which the blocked questions are answered, one at most for each. */
  function BlockedRecords(book: Rulebook, questions: seq<Question>): (rrs: seq<RR>)
    ensures |rrs| + |Unblocked(book, questions)| <= |questions|
  {
    if questions == [] then []
    else
      var last := questions[|questions| - 1];
      BlockedRecords(book, questions[..|questions| - 1]) +
      if Blocked(book, last.name) then BlockedAnswer(book, last.name) else []
  }

  /** The messages served so far differ in their answers alone, by these records. */
  ghost predicate DifferBy(st: Served, st': Served, extra: seq<RR>) {
    st.sh == st'.sh && st.log == st'.log && st.rcode == st'.rcode &&
    multiset(st.answer) == multiset(st'.answer) + multiset(extra)
  }

  lemma ServeOneDiffers(env: Env, book: Rulebook, st: Served, st': Served, extra: seq<RR>, q: Question, gated: bool)
    requires DifferBy(st, st', extra)
    ensures if Blocked(book, q.name) then DifferBy(ServeOne(env, book, st, q, gated), st',
              extra + BlockedAnswer(book, q.name))
            else DifferBy(ServeOne(env, book, st, q, gated), ServeOne(env, book, st', q, gated), extra)
  {
    hide Resolve, Blocked, AnswerLog, PassesGate, BlockedAnswer;
  }

  /** A message is served as if its blocked questions were not there: cache, network, insertions and
      code are those of serving the other questions alone, and only their records are added to the
      answer. */
  lemma {:induction false} BlockedInvisible(env: Env, book: Rulebook, st: Served, questions: seq<Question>, gated: bool)
    ensures DifferBy(Serve(env, book, st, questions, gated), Serve(env, book, st, Unblocked(book, questions), gated),
                BlockedRecords(book, questions))
  {
    hide ServeOne, Blocked, BlockedAnswer;
    if questions != [] {
      var front, last := questions[..|questions| - 1], questions[|questions| - 1];
      BlockedInvisible(env, book, st, front, gated);
      ServeOneDiffers(env, book, Serve(env, book, st, front, gated),
          Serve(env, book, st, Unblocked(book, front), gated), BlockedRecords(book, front), last, gated);
      assert (Unblocked(book, front) + [last])[..|Unblocked(book, front)|] == Unblocked(book, front);
      assert Unblocked(book, front) + [] == Unblocked(book, front);
      assert BlockedRecords(book, front) + [] == BlockedRecords(book, front);
    }
  }

  /** The lists and key sets that serving reads are those of the index. */
  ghost predicate ReadsIndex(book: Rulebook, ix: Index, ipv4Name: string, ipv6Name: string) {
    book.keys == ix.keys && book.listKeys == ix.listKeys &&
    book.lists == ListsInUse(ipv4Name, ipv6Name, ix.lists, ix.rules)
  }

  /** After a run of safe edits a list takes exactly the names that its current rules mean if and only
      if these rules meet the two conditions. */
  lemma {:induction false} ListTakesMeant(ipv4Name: string, ipv6Name: string, lists: seq<ListConfig>, rules: Rules,
      lines: seq<Line>, book: Rulebook, j: nat)
    requires SafeThroughout(Seeded(rules, lists, ListsInUse(ipv4Name, ipv6Name, lists, rules)), lines)
    requires var ix := RunLines(Seeded(rules, lists, ListsInUse(ipv4Name, ipv6Name, lists, rules)), lines);
             ReadsIndex(book, ix, ipv4Name, ipv6Name) && j < |book.lists|
    ensures (forall name :: InListKeys(book, name, j) <==> Intended(book.lists[j].rules, TrimDot(name))) <==>
            Matchable(book.lists[j].rules)
  {
    hide FastMatch, Intended, Matchable, RunLines, SafeThroughout, Seeded;
    RunsMatchAsMeant(ipv4Name, ipv6Name, lists, rules, lines, j);
    if forall name :: InListKeys(book, name, j) <==> Intended(book.lists[j].rules, TrimDot(name)) {
      forall q
        ensures FastMatch(book.listKeys[j], q) <==> Intended(book.lists[j].rules, q)
      {
        assert TrimDot(q + ".") == q;
        assert InListKeys(book, q + ".", j) <==> Intended(book.lists[j].rules, TrimDot(q + "."));
      }
    }
  }

  /** A list that meets the two conditions takes a name, with or without the dot at the end that names
      have on the wire, exactly when its current rules mean it. */
  lemma {:induction false} WireNamesTaken(ipv4Name: string, ipv6Name: string, lists: seq<ListConfig>, rules: Rules,
      lines: seq<Line>, book: Rulebook, j: nat, q: string)
    requires SafeThroughout(Seeded(rules, lists, ListsInUse(ipv4Name, ipv6Name, lists, rules)), lines)
    requires var ix := RunLines(Seeded(rules, lists, ListsInUse(ipv4Name, ipv6Name, lists, rules)), lines);
             ReadsIndex(book, ix, ipv4Name, ipv6Name) && j < |book.lists|
    requires Matchable(book.lists[j].rules)
    ensures InListKeys(book, q + ".", j) <==> Intended(book.lists[j].rules, q)
    ensures q == "" || q[|q| - 1] != '.' ==> (InListKeys(book, q, j) <==> Intended(book.lists[j].rules, q))
  {
    hide InListKeys, Intended, Matchable, RunLines, SafeThroughout, Seeded;
    ListTakesMeant(ipv4Name, ipv6Name, lists, rules, lines, book, j);
    TrimDotExact(q);
  }

  /** From startup through any run of safe edits to the serving of a message: an address is inserted
      into the set of a list that meets the two conditions exactly when a question's name is meant by
      the rules the list has at that time. */
  lemma {:induction false} InsertionsFollowRules(
    ipv4Name: string, ipv6Name: string, lists: seq<ListConfig>, rules: Rules, lines: seq<Line>,
    env: Env, book: Rulebook, st: Served, questions: seq<Question>, i: nat, k: nat, j: nat, x: Insertion)
    requires SafeThroughout(Seeded(rules, lists, ListsInUse(ipv4Name, ipv6Name, lists, rules)), lines)
    requires var ix := RunLines(Seeded(rules, lists, ListsInUse(ipv4Name, ipv6Name, lists, rules)), lines);
             ReadsIndex(book, ix, ipv4Name, ipv6Name)
    requires j < |book.lists| ==> Matchable(book.lists[j].rules)
    ensures Makes(env, book, st, questions, i, k, j, x) <==>
            i < |questions| && !Blocked(book, questions[i].name) &&
            k < |AnswersTo(env, book, st, questions, i)| && j < |book.lists| &&
            Intended(book.lists[j].rules, TrimDot(questions[i].name)) &&
            Justifies(AnswersTo(env, book, st, questions, i)[k], book.lists[j], x)
  {
    hide Justifies, Resolve, InListKeys, Intended, SafeThroughout, RunLines, Serve, Seeded, Matchable, ReadsIndex;
    if j < |book.lists| {
      ListTakesMeant(ipv4Name, ipv6Name, lists, rules, lines, book, j);
    }
  }

  /** Without lists, addresses go to the set named for IPv4 and, if there is a name for IPv6, to the set
      with the first name and a 6, whatever the second name is. */
  lemma {:induction false} LegacySets(ipv4Name: string, ipv6Name: string, rules: Rules, env: Env, book: Rulebook,
      st: Served, questions: seq<Question>, i: nat, k: nat, j: nat, x: Insertion)
    requires book.lists == ListsInUse(ipv4Name, ipv6Name, [], rules)
    requires Makes(env, book, st, questions, i, k, j, x)
    ensures ipv4Name != "" && j == 0
    ensures var data := AnswersTo(env, book, st, questions, i)[k].data;
            (data == A(x.octets) && x.setName == ipv4Name) ||
            (data == AAAA(x.octets) && ipv6Name != "" && x.setName == ipv4Name + "6")
  {
    hide InListKeys, Resolve, Blocked, NormalizeTtl;
  }

  /** The ipsets, as the sequence of insertions made. */
  class IpSets {
    var log: seq<Insertion>

    constructor ()
      ensures log == []
    {
      log := [];
    }

    method AddElement(setName: string, octets: seq<byte>, timeout: uint32)
      modifies this
      ensures log == old(log) + [Insertion(setName, octets, timeout)]
    {
      log := log + [Insertion(setName, octets, timeout)];
    }
  }

  class Server {
    const resolver: Handler
    const cfg: Config
    const domainCache: DomainCache
    const listDomainCaches: map<nat, DomainCache>
    const blockedDomains: DomainCache?
    const ipSets: IpSets
    const parse: string -> Option<RR>

    constructor (resolver: Handler, cfg: Config, domainCache: DomainCache, listDomainCaches: map<nat, DomainCache>,
                 blockedDomains: DomainCache?, ipSets: IpSets, parse: string -> Option<RR>)
      ensures this.resolver == resolver && this.cfg == cfg && this.domainCache == domainCache
      ensures this.listDomainCaches == listDomainCaches && this.blockedDomains == blockedDomains
      ensures this.ipSets == ipSets && this.parse == parse
    {
      this.resolver, this.cfg, this.domainCache, this.listDomainCaches := resolver, cfg, domainCache, listDomainCaches;
      this.blockedDomains, this.ipSets, this.parse := blockedDomains, ipSets, parse;
    }

    /** What the server reads: the key sets of its indexes, the lists of its configuration, and the
        blocked domains if it has a blocklist. */
    ghost function Book(): (book: Rulebook)
      reads cfg, domainCache, listDomainCaches.Values, blockedDomains
      ensures book.keys == domainCache.keys && book.lists == cfg.GetIPSetLists() && book.parse == parse
      ensures book.listKeys.Keys == listDomainCaches.Keys &&
              forall i :: i in listDomainCaches ==> book.listKeys[i] == listDomainCaches[i].keys
      ensures if blockedDomains == null then book.blocked.None? else book.blocked == Option.Some(blockedDomains.keys)
    {
      Rulebook(domainCache.keys, map i | i in listDomainCaches :: listDomainCaches[i].keys, cfg.GetIPSetLists(),
               if blockedDomains == null then Option.None else Option.Some(blockedDomains.keys), parse)
    }

    /** The server reads the index that the API edits, when both have the same configuration and caches. */
    lemma ReadsEdited(h: Handlers)
      requires h.cfg == cfg && h.domainCache == domainCache && h.listDomainCaches == listDomainCaches
      ensures ReadsIndex(Book(), h.View(), cfg.ipv4Name, cfg.ipv6Name)
    {
    }

    method IsDomainInList(domain: string, i: nat) returns (found: bool)
      ensures found <==> InListKeys(Book(), domain, i)
      ensures forall q :: domain == q + "." ==>
                (found <==> i in listDomainCaches && FastMatch(listDomainCaches[i].keys, q))
    {
      if i !in listDomainCaches {
        return false;
      }
      found := listDomainCaches[i].Matches(domain);
    }

    /** The lists are visited in no particular order. */
    method ShouldProcess(domain: string) returns (found: bool)
      ensures found <==> PassesGate(Book(), domain)
    {
      hide FastMatch;
      found := domainCache.Matches(domain);
      if found {
        return;
      }
      var todo := listDomainCaches.Keys;
      while todo != {}
        invariant todo <= listDomainCaches.Keys
        invariant forall i :: i in listDomainCaches && i !in todo ==> !InListKeys(Book(), domain, i)
        decreases |todo|
      {
        var i :| i in todo;
        found := listDomainCaches[i].Matches(domain);
        if found {
          assert InListKeys(Book(), domain, i);
          return;
        }
        todo := todo - {i};
      }
      return false;
    }

    method ProcessRecord(rr: RR, question: string)
      modifies ipSets
      ensures ipSets.log == old(ipSets.log) + RecordLog(Book(), question, rr, |Book().lists|)
    {
      hide InListKeys, NormalizeTtl, FastMatch;
      var lists := cfg.GetIPSetLists();
      for i := 0 to |lists|
        invariant ipSets.log == old(ipSets.log) + RecordLog(Book(), question, rr, i)
      {
        var matched := IsDomainInList(question, i);
        AppendAssoc(old(ipSets.log), RecordLog(Book(), question, rr, i), if matched then OneInsertion(rr, lists[i])
            else []);
        match rr.data {
          case A(octets) =>
            if matched {
              ipSets.AddElement(lists[i].name, octets, NormalizeTtl(rr.ttl));
            }
          case AAAA(octets) =>
            if matched && lists[i].enableIPv6 {
              ipSets.AddElement(lists[i].name + "6", octets, NormalizeTtl(rr.ttl));
            }
          case _ =>
        }
      }
    }

    method ProcessAnswers(answers: seq<RR>, question: string)
      modifies ipSets
      ensures ipSets.log == old(ipSets.log) + AnswerLog(Book(), question, answers)
    {
      hide RecordLog;
      for i := 0 to |answers|
        invariant ipSets.log == old(ipSets.log) + AnswerLog(Book(), question, answers[..i])
      {
        assert answers[..i + 1][..i] == answers[..i];
        AppendAssoc(old(ipSets.log), AnswerLog(Book(), question, answers[..i]),
            RecordLog(Book(), question, answers[i], |Book().lists|));
        ProcessRecord(answers[i], question);
      }
      assert answers[..|answers|] == answers;
    }

    ghost function View(now: nat, answer: seq<RR>, rcode: nat): Served
      requires resolver.dnsCache.Valid()
      reads resolver.dnsCache, resolver.upstream, ipSets
    {
      Served(resolver.View(now), answer, rcode, ipSets.log)
    }

    method ServeQuestion(q: Question, answer: seq<RR>, rcode: nat, now: Seconds) returns (answer': seq<RR>, rcode': nat)
      requires resolver.dnsCache.Valid()
      modifies resolver.dnsCache, resolver.upstream, ipSets
      ensures resolver.dnsCache.Valid()
      ensures View(now, answer', rcode') == ServeOne(resolver.Environment(), Book(), old(View(now, answer, rcode)), q,
          true)
    {
      hide Resolve, FastMatch, AnswerLog, PassesGate, DecodeAll, ExchangeSort, Written;
      answer', rcode' := answer, rcode;
      if blockedDomains != null && blockedDomains.Contains(TrimDot(q.name)) {
        var rr := parse(q.name + " A 0.0.0.0");
        if rr.Some? {
          answer' := answer + [rr.value];
        }
        return;
      }
      var answers, code := resolver.Query(q.name, q.qtype, 0, now);
      var process := ShouldProcess(q.name);
      if process {
        ProcessAnswers(answers, q.name);
      }
      answer' := answer + answers;
      if code != SUCCESS {
        rcode' := code;
      }
    }

    method ServeDNS(questions: seq<Question>, now: Seconds) returns (answer: seq<RR>, rcode: nat)
      requires resolver.dnsCache.Valid()
      modifies resolver.dnsCache, resolver.upstream, ipSets
      ensures resolver.dnsCache.Valid()
      ensures View(now, answer, rcode) == Serve(resolver.Environment(), Book(), old(View(now, [], SUCCESS)),
          questions, true)
    {
      hide ServeOne;
      answer, rcode := [], SUCCESS;
      for i := 0 to |questions|
        invariant resolver.dnsCache.Valid()
        invariant View(now, answer, rcode) == Serve(resolver.Environment(), Book(), old(View(now, [], SUCCESS)),
            questions[..i], true)
      {
        assert questions[..i + 1][..i] == questions[..i];
        answer, rcode := ServeQuestion(questions[i], answer, rcode, now);
      }
      assert questions[..|questions|] == questions;
    }
  }
}
