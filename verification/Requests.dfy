/** What an edit request does to the rules, in terms of the text of its body. */
module Requests {
  import opened Text
  import opened DomainMatch
  import opened RuleConfig
  import opened RuleIndex
  import opened IndexRuns

  /** The text is what some line of the body holds between its white space. */
  ghost predicate LineOf(body: string, t: string) {
    t != "" && exists raw :: PieceOf(body, raw, '\n') && Surrounded(raw, t)
  }

  /** How a request of a kind changes rules: a POST puts the texts after what is there, a DELETE takes
      them out, and nothing else changes. */
  ghost predicate Changes(before: Rules, after: Rules, kind: Kind, texts: iset<string>) {
    match kind
    case PostDomains =>
      after.suffixes == before.suffixes && before.domains <= after.domains &&
      forall t :: t in after.domains <==> t in before.domains || t in texts
    case DeleteDomains =>
      after.suffixes == before.suffixes &&
      forall t :: t in after.domains <==> t in before.domains && t !in texts
    case PostSuffixes =>
      after.domains == before.domains && before.suffixes <= after.suffixes &&
      forall t :: t in after.suffixes <==> t in before.suffixes || t in texts
    case DeleteSuffixes =>
      after.domains == before.domains &&
      forall t :: t in after.suffixes <==> t in before.suffixes && t !in texts
  }

  lemma ChangesNothing(r: Rules, kind: Kind)
    ensures Changes(r, r, kind, iset{})
  {
  }

  lemma ChangesMore(a: Rules, b: Rules, c: Rules, kind: Kind, texts: iset<string>, more: iset<string>)
    requires Changes(a, b, kind, texts) && Changes(b, c, kind, more)
    ensures Changes(a, c, kind, texts + more)
  {
  }

  lemma {:induction false} EditChanges(r: Rules, kind: Kind, t: string)
    ensures Changes(r, EditRules(r, EditOf(kind, t)), kind, iset{t})
  {
    hide Without;
    match kind
    case PostDomains => assert forall u :: u in AddUnique(r.domains, t) <==> u in r.domains || u == t;
    case DeleteDomains => assert forall u :: u in Without(r.domains, t) <==> u in r.domains && u != t;
    case PostSuffixes => assert forall u :: u in AddUnique(r.suffixes, t) <==> u in r.suffixes || u == t;
    case DeleteSuffixes => assert forall u :: u in Without(r.suffixes, t) <==> u in r.suffixes && u != t;
  }

  /** The trimmed lines that are not blank. */
  ghost function Texts(lines: seq<string>): iset<string> {
    iset m | 0 <= m < |lines| && TrimSpace(lines[m]) != "" :: TrimSpace(lines[m])
  }

  lemma TextsMore(lines: seq<string>)
    requires lines != []
    ensures var last := TrimSpace(lines[|lines| - 1]);
            Texts(lines) == Texts(lines[..|lines| - 1]) + if last == "" then iset{} else iset{last}
  {
    hide TrimSpace;
    var front := lines[..|lines| - 1];
    forall t | t in Texts(lines)
      ensures t in Texts(front) || t == TrimSpace(lines[|lines| - 1])
    {
      var m :| 0 <= m < |lines| && TrimSpace(lines[m]) == t;
      assert m < |front| ==> front[m] == lines[m];
    }
    forall t | t in Texts(front)
      ensures t in Texts(lines)
    {
      var m :| 0 <= m < |front| && TrimSpace(front[m]) == t;
      assert front[m] == lines[m];
    }
  }

  lemma {:induction false} TextsOfBody(body: string, t: string)
    ensures t in Texts(Split(body, '\n')) <==> LineOf(body, t)
  {
    hide Split, TrimSpace, PieceOf, Surrounded;
    var lines := Split(body, '\n');
    if t in Texts(lines) {
      var m :| 0 <= m < |lines| && TrimSpace(lines[m]) != "" && TrimSpace(lines[m]) == t;
      SplitExact(body, lines[m], '\n');
      TrimExact(lines[m], t);
    }
    if LineOf(body, t) {
      var raw :| PieceOf(body, raw, '\n') && Surrounded(raw, t);
      SplitExact(body, raw, '\n');
      TrimExact(raw, t);
      var m :| 0 <= m < |lines| && lines[m] == raw;
    }
  }

  /** The scope names rules: the shared ones, or those of a list; without lists, list 0 is the shared
      rules. */
  predicate InScope(ix: Index, scope: Scope) {
    match scope
    case Global => true
    case InList(i) => if |ix.lists| == 0 then i == 0 else i < |ix.lists|
  }

  function RulesOf(ix: Index, scope: Scope): Rules
    requires InScope(ix, scope)
  {
    match scope
    case Global => ix.rules
    case InList(i) => if |ix.lists| == 0 then ix.rules else ix.lists[i].rules
  }

  /** Nothing but the rules of the scope differs. */
  ghost predicate OnlyRulesOf(before: Index, after: Index, scope: Scope) {
    |after.lists| == |before.lists| &&
    (scope.InList? && |before.lists| > 0 ==> after.rules == before.rules) &&
    forall k: nat :: k < |before.lists| ==>
      after.lists[k] == before.lists[k] ||
      (scope == InList(k) && after.lists[k] == before.lists[k].(rules := after.lists[k].rules))
  }

  lemma OnlyRulesTwice(a: Index, b: Index, c: Index, scope: Scope)
    requires OnlyRulesOf(a, b, scope) && OnlyRulesOf(b, c, scope)
    ensures OnlyRulesOf(a, c, scope)
  {
    forall k: nat | k < |a.lists|
      ensures c.lists[k] == a.lists[k] ||
              (scope == InList(k) && c.lists[k] == a.lists[k].(rules := c.lists[k].rules))
    {
      assert b.lists[k] == a.lists[k] || scope == InList(k);
      assert c.lists[k] == b.lists[k] || scope == InList(k);
    }
  }

  /** One line of a request for a list. */
  lemma ListStep(ix: Index, i: nat, e: Edit)
    ensures var after := ApplyEdit(ix, InList(i), e);
            OnlyRulesOf(ix, after, InList(i)) && InScope(after, InList(i)) == InScope(ix, InList(i)) &&
            if InScope(ix, InList(i)) then RulesOf(after, InList(i)) == EditRules(RulesOf(ix, InList(i)), e)
            else after.rules == ix.rules && after.lists == ix.lists
  {
    hide EditRules, EditListKeys;
  }

  /** What the lines of a request for a list have changed. */
  ghost predicate ListChanged(ix: Index, after: Index, i: nat, kind: Kind, texts: iset<string>) {
    OnlyRulesOf(ix, after, InList(i)) && InScope(after, InList(i)) == InScope(ix, InList(i)) &&
    if InScope(ix, InList(i)) then Changes(RulesOf(ix, InList(i)), RulesOf(after, InList(i)), kind, texts)
    else after.rules == ix.rules && after.lists == ix.lists
  }

  lemma ListChangedMore(ix: Index, before: Index, i: nat, kind: Kind, texts: iset<string>, t: string)
    requires ListChanged(ix, before, i, kind, texts)
    ensures ListChanged(ix, ApplyEdit(before, InList(i), EditOf(kind, t)), i, kind, texts + iset{t})
  {
    hide OnlyRulesOf, InScope, RulesOf, Changes, ApplyEdit, EditRules, EditOf;
    var after := ApplyEdit(before, InList(i), EditOf(kind, t));
    ListStep(before, i, EditOf(kind, t));
    OnlyRulesTwice(ix, before, after, InList(i));
    if InScope(ix, InList(i)) {
      EditChanges(RulesOf(before, InList(i)), kind, t);
      ChangesMore(RulesOf(ix, InList(i)), RulesOf(before, InList(i)), RulesOf(after, InList(i)), kind, texts, iset{t});
    }
  }

  lemma NoneChanged(ix: Index, i: nat, kind: Kind)
    ensures ListChanged(ix, ix, i, kind, iset{})
  {
    hide Changes;
    if InScope(ix, InList(i)) {
      ChangesNothing(RulesOf(ix, InList(i)), kind);
    }
  }

  lemma {:induction false} ListLines(ix: Index, i: nat, kind: Kind, lines: seq<string>)
    ensures ListChanged(ix, RunLines(ix, BodyLines(InList(i), kind, lines)), i, kind, Texts(lines))
  {
    hide TrimSpace, ApplyEdit, Texts, EditOf, ListChanged;
    if lines == [] {
      assert Texts([]) == iset{} by { NoTexts(); }
      NoneChanged(ix, i, kind);
    } else {
      var front, t := lines[..|lines| - 1], TrimSpace(lines[|lines| - 1]);
      ListLines(ix, i, kind, front);
      TextsMore(lines);
      if t == "" {
        assert BodyLines(InList(i), kind, front) + [] == BodyLines(InList(i), kind, front);
        assert Texts(front) + iset{} == Texts(front);
      } else {
        OneLine(ix, BodyLines(InList(i), kind, front), Line(InList(i), EditOf(kind, t)));
        ListChangedMore(ix, RunLines(ix, BodyLines(InList(i), kind, front)), i, kind, Texts(front), t);
      }
    }
  }

  lemma NoTexts()
    ensures Texts([]) == iset{}
  {
  }

  /** The texts of a body. */
  ghost function BodyTexts(body: string): iset<string> {
    iset t | LineOf(body, t)
  }

  lemma RunOneCall(ix: Index, scope: Scope, kind: Kind, body: string)
    ensures RunCalls(ix, [ApiCall(scope, kind, body)]) == RunLines(ix, BodyLines(scope, kind, Split(body, '\n')))
    ensures Texts(Split(body, '\n')) == BodyTexts(body)
  {
    hide Split, LineOf, RunLines, BodyLines, Texts;
    var calls := [ApiCall(scope, kind, body)];
    assert calls[..0] == [];
    assert RunCalls(ix, calls[..0]) == ix;
    forall t
      ensures t in Texts(Split(body, '\n')) <==> LineOf(body, t)
    {
      TextsOfBody(body, t);
    }
  }

  /** A request for a list: a POST adds every text of the body to the list's rules of its kind, a DELETE
      takes every one out; nothing else changes, and nothing at all when there is no such list. */
  lemma {:induction false} ListRequestExact(ix: Index, i: nat, kind: Kind, body: string)
    ensures ListChanged(ix, RunCalls(ix, [ApiCall(InList(i), kind, body)]), i, kind, BodyTexts(body))
  {
    hide Split, RunLines, RunCalls, BodyLines, Texts, BodyTexts, ListChanged;
    RunOneCall(ix, InList(i), kind, body);
    ListLines(ix, i, kind, Split(body, '\n'));
  }

  /** A text that a global request of the kind can handle on dotted rules: a domain without a dot in
      front, or a suffix that is its own lookup key, as one of two labels is. */
  predicate Handled(kind: Kind, t: string) {
    if kind == PostDomains || kind == DeleteDomains then !HasPrefix(t, ".") else SuffixKey(t) == t
  }

  lemma {:induction false} GlobalEditChanges(x: Indexed, kind: Kind, t: string)
    requires Agrees(x) && DottedRules(x.rules) && Handled(kind, t)
    ensures var after := GlobalEdit(x, EditOf(kind, t));
            Changes(x.rules, after.rules, kind, iset{t}) && Agrees(after) && DottedRules(after.rules)
  {
    var e := EditOf(kind, t);
    hide SuffixKey, EditListKeys, EditRules;
    assert forall s :: s in x.rules.suffixes ==> Dotted(s) == s;
    if e.AddSuffix? || e.RemoveSuffix? {
      OwnKeyIsDotted(t);
    }
    GlobalEditExact(x, e);
    DottedIsSafe(x, Line(Global, e));
    DottedStays(x.rules, Line(Global, e));
    EditChanges(x.rules, kind, t);
  }

  lemma {:induction false} GlobalLines(ix: Index, kind: Kind, lines: seq<string>)
    requires Agrees(Indexed(ix.keys, ix.rules)) && DottedRules(ix.rules)
    requires forall t :: t in Texts(lines) ==> Handled(kind, t)
    ensures var after := RunLines(ix, BodyLines(Global, kind, lines));
            Changes(ix.rules, after.rules, kind, Texts(lines)) && after.lists == ix.lists &&
            after.listKeys == ix.listKeys && Agrees(Indexed(after.keys, after.rules)) && DottedRules(after.rules)
  {
    hide TrimSpace, GlobalEdit, Changes, Texts, EditOf, Handled, Agrees, DottedRules;
    if lines == [] {
      assert Texts([]) == iset{} by { NoTexts(); }
      ChangesNothing(ix.rules, kind);
    } else {
      var front, t := lines[..|lines| - 1], TrimSpace(lines[|lines| - 1]);
      var before := RunLines(ix, BodyLines(Global, kind, front));
      TextsMore(lines);
      GlobalLines(ix, kind, front);
      if t == "" {
        assert BodyLines(Global, kind, front) + [] == BodyLines(Global, kind, front);
        assert Texts(front) + iset{} == Texts(front);
      } else {
        OneLine(ix, BodyLines(Global, kind, front), Line(Global, EditOf(kind, t)));
        GlobalEditChanges(Indexed(before.keys, before.rules), kind, t);
        var after := ApplyEdit(before, Global, EditOf(kind, t));
        ChangesMore(ix.rules, before.rules, after.rules, kind, Texts(front), iset{t});
      }
    }
  }

  /** The same for a global request, on an agreeing index of dotted rules and for texts it can handle. */
  lemma {:induction false} GlobalRequestExact(ix: Index, kind: Kind, body: string)
    requires Agrees(Indexed(ix.keys, ix.rules)) && DottedRules(ix.rules)
    requires forall t :: LineOf(body, t) ==> Handled(kind, t)
    ensures var after := RunCalls(ix, [ApiCall(Global, kind, body)]);
            Changes(ix.rules, after.rules, kind, BodyTexts(body)) && after.lists == ix.lists &&
            after.listKeys == ix.listKeys && Agrees(Indexed(after.keys, after.rules)) && DottedRules(after.rules)
  {
    hide Split, RunLines, RunCalls, BodyLines, Texts, Changes, LineOf, Handled, Agrees, DottedRules;
    RunOneCall(ix, Global, kind, body);
    GlobalLines(ix, kind, Split(body, '\n'));
  }
}
