/** The insertions of a message, one by one: which there are, how often, and in what order. */
module LogOrder {
  import opened Records
  import opened Resolver
  import opened Routing

  /** The question, the record among its answers and the list that make an insertion. */
  datatype Cause = Cause(question: nat, answer: nat, list: nat)

  /** Question by question, answer by answer, list by list. */
  predicate Before(a: Cause, b: Cause) {
    a.question < b.question ||
    (a.question == b.question && (a.answer < b.answer || (a.answer == b.answer && a.list < b.list)))
  }

  type Justification = (Cause, Insertion) -> bool

  /** The log is made by these causes, each once and in order, and there is no other cause. */
  ghost predicate MadeBy(log: seq<Insertion>, causes: seq<Cause>, j: Justification) {
    |log| == |causes| &&
    (forall m, n :: 0 <= m < n < |causes| ==> Before(causes[m], causes[n])) &&
    (forall m :: 0 <= m < |log| ==> j(causes[m], log[m])) &&
    forall c, x :: j(c, x) ==> c in causes
  }

  lemma MadeInTurn(log: seq<Insertion>, log': seq<Insertion>, causes: seq<Cause>, causes': seq<Cause>,
      j: Justification, j': Justification, both: Justification)
    requires MadeBy(log, causes, j) && MadeBy(log', causes', j')
    requires forall c, x, c', x' :: j(c, x) && j'(c', x') ==> Before(c, c')
    requires forall c, x :: both(c, x) <==> j(c, x) || j'(c, x)
    ensures MadeBy(log + log', causes + causes', both)
  {
    var all, made := causes + causes', log + log';
    forall m, n | 0 <= m < n < |all|
      ensures Before(all[m], all[n])
    {
      if m < |causes| <= n {
        assert j(causes[m], log[m]) && j'(causes'[n - |causes|], log'[n - |causes|]);
      }
    }
    forall m | 0 <= m < |made|
      ensures both(all[m], made[m])
    {
      if m < |log| {
        assert j(causes[m], log[m]);
      } else {
        assert j'(causes'[m - |log|], log'[m - |log|]);
      }
    }
  }

  lemma MadeAlike(log: seq<Insertion>, causes: seq<Cause>, j: Justification, j': Justification)
    requires MadeBy(log, causes, j) && forall c, x :: j(c, x) <==> j'(c, x)
    ensures MadeBy(log, causes, j')
  {
    forall m | 0 <= m < |log|
      ensures j'(causes[m], log[m])
    {
      assert j(causes[m], log[m]);
    }
  }

  /** What a record of question i at position k of its answers makes in the lists from `from` up to n. */
  ghost function RecordJustifies(book: Rulebook, name: string, rr: RR, i: nat, k: nat, from: nat,
      n: nat): Justification
    requires n <= |book.lists|
  {
    (c: Cause, x: Insertion) =>
      c.question == i && c.answer == k && from <= c.list < n && InListKeys(book, name, c.list) &&
      Justifies(rr, book.lists[c.list], x)
  }

  lemma {:induction false} RecordOrder(book: Rulebook, name: string, rr: RR, i: nat, k: nat,
      n: nat) returns (causes: seq<Cause>)
    requires n <= |book.lists|
    ensures MadeBy(RecordLog(book, name, rr, n), causes, RecordJustifies(book, name, rr, i, k, 0, n))
  {
    hide InListKeys, NormalizeTtl;
    if n == 0 {
      causes := [];
    } else {
      var front := RecordOrder(book, name, rr, i, k, n - 1);
      var made := RecordLog(book, name, rr, n)[|RecordLog(book, name, rr, n - 1)|..];
      var own: seq<Cause> := if made == [] then [] else [Cause(i, k, n - 1)];
      OneOrder(book, name, rr, i, k, n, own);
      causes := front + own;
      MadeInTurn(RecordLog(book, name, rr, n - 1), made, front, own, RecordJustifies(book, name, rr, i, k, 0, n - 1),
          RecordJustifies(book, name, rr, i, k, n - 1, n), RecordJustifies(book, name, rr, i, k, 0, n));
    }
  }

  lemma OneOrder(book: Rulebook, name: string, rr: RR, i: nat, k: nat, n: nat, own: seq<Cause>)
    requires 0 < n <= |book.lists|
    requires var made := RecordLog(book, name, rr, n)[|RecordLog(book, name, rr, n - 1)|..];
             own == if made == [] then [] else [Cause(i, k, n - 1)]
    ensures RecordLog(book, name, rr, n - 1) <= RecordLog(book, name, rr, n)
    ensures MadeBy(RecordLog(book, name, rr, n)[|RecordLog(book, name, rr, n - 1)|..], own,
                RecordJustifies(book, name, rr, i, k, n - 1, n))
  {
    hide InListKeys, NormalizeTtl;
    var made := RecordLog(book, name, rr, n)[|RecordLog(book, name, rr, n - 1)|..];
    assert made == if InListKeys(book, name, n - 1) then OneInsertion(rr, book.lists[n - 1]) else [];
    var j := RecordJustifies(book, name, rr, i, k, n - 1, n);
    forall c, x | j(c, x)
      ensures c in own
    {
      assert c == Cause(i, k, n - 1);
    }
  }

  /** What the answers of question i make. */
  ghost function AnswersJustify(book: Rulebook, name: string, answers: seq<RR>, i: nat): Justification {
    (c: Cause, x: Insertion) =>
      c.question == i && c.answer < |answers| && c.list < |book.lists| && InListKeys(book, name, c.list) &&
      Justifies(answers[c.answer], book.lists[c.list], x)
  }

  lemma NoAnswers(book: Rulebook, name: string, i: nat)
    ensures MadeBy([], [], AnswersJustify(book, name, [], i))
  {
    var j := AnswersJustify(book, name, [], i);
    forall c: Cause, x: Insertion
      ensures !j(c, x)
    {
      assert c.answer >= 0;
    }
  }

  lemma {:induction false} AnswerOrder(book: Rulebook, name: string, answers: seq<RR>,
      i: nat) returns (causes: seq<Cause>)
    ensures MadeBy(AnswerLog(book, name, answers), causes, AnswersJustify(book, name, answers, i))
  {
    hide InListKeys, Justifies, RecordLog;
    if answers == [] {
      causes := [];
      NoAnswers(book, name, i);
    } else {
      hide MadeBy;
      var k := |answers| - 1;
      var front := AnswerOrder(book, name, answers[..k], i);
      var own := RecordOrder(book, name, answers[k], i, k, |book.lists|);
      causes := front + own;
      var j, j' := AnswersJustify(book, name, answers[..k], i),
          RecordJustifies(book, name, answers[k], i, k, 0, |book.lists|);
      var both := AnswersJustify(book, name, answers, i);
      forall c, x
        ensures j(c, x) ==> c.question == i && c.answer < k
        ensures j'(c, x) ==> c.question == i && c.answer == k
        ensures both(c, x) <==> j(c, x) || j'(c, x)
      {
        assert c.answer < k ==> answers[..k][c.answer] == answers[c.answer];
      }
      MadeInTurn(AnswerLog(book, name, answers[..k]), RecordLog(book, name, answers[k], |book.lists|), front, own,
          j, j', both);
    }
  }

  /** What the questions of a message make. */
  ghost function MessageJustifies(env: Env, book: Rulebook, st: Served, questions: seq<Question>): Justification {
    (c: Cause, x: Insertion) => Makes(env, book, st, questions, c.question, c.answer, c.list, x)
  }

  /** What its question n makes. */
  ghost function QuestionJustifies(env: Env, book: Rulebook, st: Served, questions: seq<Question>,
      n: nat): Justification {
    (c: Cause, x: Insertion) =>
      c.question == n && Makes(env, book, st, questions, c.question, c.answer, c.list, x)
  }

  /** The insertions of a message are made in the order of its questions, of their answers and of the
      lists, one for each question that is not blocked, address among its answers and matching list that
      takes it, and no others; they follow those made before. */
  lemma {:induction false} LogInOrder(env: Env, book: Rulebook, st: Served,
      questions: seq<Question>) returns (causes: seq<Cause>)
    ensures var log := Serve(env, book, st, questions, true).log;
            st.log <= log &&
            MadeBy(log[|st.log|..], causes, MessageJustifies(env, book, st, questions))
  {
    GateLosesNothing(env, book, st, questions);
    causes := UngatedOrder(env, book, st, questions);
  }

  lemma {:induction false} UngatedOrder(env: Env, book: Rulebook, st: Served,
      questions: seq<Question>) returns (causes: seq<Cause>)
    ensures var log := Serve(env, book, st, questions, false).log;
            st.log <= log &&
            MadeBy(log[|st.log|..], causes, MessageJustifies(env, book, st, questions))
  {
    hide MadeBy, Makes, Serve, ServeOne, AnswerLog;
    if questions == [] {
      causes := [];
      NothingMade(env, book, st);
    } else {
      var n := |questions| - 1;
      var front := UngatedOrder(env, book, st, questions[..n]);
      var own := QuestionOrder(env, book, st, questions);
      causes := front + own;
      var log := Serve(env, book, st, questions[..n], false).log;
      assert (log + LastLog(env, book, st, questions))[|st.log|..] ==
             log[|st.log|..] + LastLog(env, book, st, questions);
      LogGrows(env, book, st, questions);
      MessageInTurn(env, book, st, questions, log[|st.log|..], front, own);
    }
  }

  lemma NothingMade(env: Env, book: Rulebook, st: Served)
    ensures Serve(env, book, st, [], false) == st
    ensures MadeBy(st.log[|st.log|..], [], MessageJustifies(env, book, st, []))
  {
    hide InListKeys, Justifies, Resolve;
  }

  /** The insertions of the last question. */
  ghost function LastLog(env: Env, book: Rulebook, st: Served, questions: seq<Question>): seq<Insertion>
    requires questions != []
  {
    var n := |questions| - 1;
    if Blocked(book, questions[n].name) then []
    else AnswerLog(book, questions[n].name, AnswersTo(env, book, st, questions, n))
  }

  lemma LogGrows(env: Env, book: Rulebook, st: Served, questions: seq<Question>)
    requires questions != []
    ensures Serve(env, book, st, questions, false).log ==
            Serve(env, book, st, questions[..|questions| - 1], false).log + LastLog(env, book, st, questions)
  {
    hide Resolve, AnswerLog, PassesGate, Blocked;
  }

  lemma QuestionOrder(env: Env, book: Rulebook, st: Served, questions: seq<Question>) returns (causes: seq<Cause>)
    requires questions != []
    ensures MadeBy(LastLog(env, book, st, questions), causes,
                QuestionJustifies(env, book, st, questions, |questions| - 1))
  {
    hide InListKeys, Justifies, AnswerLog, Blocked, AnswersTo;
    var n := |questions| - 1;
    if Blocked(book, questions[n].name) {
      causes := [];
    } else {
      hide MadeBy;
      var answers := AnswersTo(env, book, st, questions, n);
      causes := AnswerOrder(book, questions[n].name, answers, n);
      MadeAlike(AnswerLog(book, questions[n].name, answers), causes,
                AnswersJustify(book, questions[n].name, answers, n),
                QuestionJustifies(env, book, st, questions, n));
    }
  }

  lemma MessageInTurn(env: Env, book: Rulebook, st: Served, questions: seq<Question>, log: seq<Insertion>,
      front: seq<Cause>, own: seq<Cause>)
    requires questions != []
    requires MadeBy(log, front, MessageJustifies(env, book, st, questions[..|questions| - 1]))
    requires MadeBy(LastLog(env, book, st, questions), own,
                 QuestionJustifies(env, book, st, questions, |questions| - 1))
    ensures MadeBy(log + LastLog(env, book, st, questions), front + own, MessageJustifies(env, book, st, questions))
  {
    hide MadeBy, Makes;
    var n := |questions| - 1;
    var j, j' := MessageJustifies(env, book, st, questions[..n]), QuestionJustifies(env, book, st, questions, n);
    var both := MessageJustifies(env, book, st, questions);
    forall c, x
      ensures j(c, x) ==> c.question < n
      ensures both(c, x) <==> j(c, x) || j'(c, x)
    {
      MakesIndex(env, book, st, questions, c, x);
      MakesIndex(env, book, st, questions[..n], c, x);
      if c.question < n {
        MakesEarlier(env, book, st, questions, c.question, c.answer, c.list, x);
      }
    }
    MadeInTurn(log, LastLog(env, book, st, questions), front, own, j, j', both);
  }

  lemma MakesIndex(env: Env, book: Rulebook, st: Served, questions: seq<Question>, c: Cause, x: Insertion)
    ensures Makes(env, book, st, questions, c.question, c.answer, c.list, x) ==> c.question < |questions|
  {
    hide InListKeys, Justifies, AnswersTo, Blocked;
  }
}
