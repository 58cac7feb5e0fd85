/** Runs of API edits from startup: when every index holds exactly what its rules say, and what the
    lists then match. */
module IndexRuns {
  import opened Text
  import opened DomainMatch
  import opened RuleConfig
  import opened RuleIndex

  /** Every key set holds exactly what its rules say. Without lists the deprecated single list, if
      there is one, is a second index of the shared rules. */
  ghost predicate AllAgree(ix: Index) {
    ix.keys == KeysOf(ix.rules) &&
    if |ix.lists| > 0 then
      (forall i: nat :: i in ix.listKeys <==> i < |ix.lists|) &&
      forall i: nat :: i < |ix.lists| ==> ix.listKeys[i] == KeysOf(ix.lists[i].rules)
    else
      forall i :: i in ix.listKeys ==> i == 0 && ix.listKeys[i] == KeysOf(ix.rules)
  }

  // One edit.

  /** The edit leaves the keys of the rules as they are. */
  predicate RulesKeep(r: Rules, e: Edit) {
    match e
    case AddDomain(d) => d in KeysOf(r)
    case RemoveDomain(d) => d in r.domains ==> d in DottedSet(r.suffixes)
    case AddSuffix(s) => Dotted(s) in KeysOf(r)
    case RemoveSuffix(s) => s in r.suffixes ==> Dotted(s) in r.domains || Dotted(s) in DottedSet(Without(r.suffixes, s))
  }

  lemma {:induction false} RulesKeepExact(r: Rules, e: Edit)
    ensures KeysOf(EditRules(r, e)) == KeysOf(r) <==> RulesKeep(r, e)
  {
    var after := KeysOf(EditRules(r, e));
    match e
    case AddDomain(d) =>
      assert forall t :: t in AddUnique(r.domains, d) <==> t in r.domains || t == d;
      assert after == KeysOf(r) + {d};
    case RemoveDomain(d) =>
      assert forall t :: t in after <==> (t in r.domains && t != d) || t in DottedSet(r.suffixes);
    case AddSuffix(s) =>
      DottedAdd(r.suffixes, s);
      assert after == KeysOf(r) + {Dotted(s)};
    case RemoveSuffix(s) =>
      DottedWithout(r.suffixes, s);
      assert forall t :: t in after <==> t in r.domains || t in DottedSet(Without(r.suffixes, s));
  }

  /** From agreement the edit changes neither the key set nor the keys of the rules. */
  predicate Unchanging(x: Indexed, e: Edit) {
    match e
    case AddDomain(d) => d in x.keys
    case RemoveDomain(d) => d !in x.keys
    case AddSuffix(s) => Dotted(s) in x.keys
    case RemoveSuffix(s) => s !in x.keys && RulesKeep(x.rules, e)
  }

  lemma {:induction false} UnchangingExact(x: Indexed, e: Edit)
    requires Agrees(x)
    ensures Unchanging(x, e) <==> EditListKeys(x.keys, e) == x.keys && KeysOf(EditRules(x.rules, e)) == x.keys
  {
    RulesKeepExact(x.rules, e);
    match e
    case AddSuffix(s) =>
      assert Dotted(s) in x.keys + {Dotted(s)};
    case AddDomain(d) =>
      assert d in x.keys + {d};
    case RemoveDomain(d) =>
      assert d !in x.keys - {d};
      assert d !in x.keys ==> x.keys - {d} == x.keys;
    case RemoveSuffix(s) =>
      assert s !in x.keys - {s};
      assert s !in x.keys ==> x.keys - {s} == x.keys;
  }

  /** Without lists an edit reaches one index of the shared rules. If there are two, agreement lasts
      exactly when nothing changes; if there is one, a per-list edit must not change its keys. */
  predicate LegacySafe(ix: Index, scope: Scope, e: Edit) {
    var x := Indexed(ix.keys, ix.rules);
    match scope
    case Global => if 0 in ix.listKeys then GlobalSkips(ix.keys, e) || Unchanging(x, e) else GlobalSafe(x, e)
    case InList(i) => i == 0 ==> if 0 in ix.listKeys then Unchanging(x, e) else RulesKeep(ix.rules, e)
  }

  lemma {:induction false} LegacyEditExact(ix: Index, scope: Scope, e: Edit)
    requires |ix.lists| == 0 && AllAgree(ix)
    ensures AllAgree(ApplyEdit(ix, scope, e)) <==> LegacySafe(ix, scope, e)
  {
    hide KeysOf, RulesKeep, EditListKeys, EditRules, GlobalSkips, Unchanging, GlobalSafe;
    var x := Indexed(ix.keys, ix.rules);
    RulesKeepExact(ix.rules, e);
    UnchangingExact(x, e);
    GlobalEditExact(x, e);
    var after := ApplyEdit(ix, scope, e);
    if 0 in ix.listKeys {
      LegacyTwice(ix, scope, e);
    } else {
      assert forall i :: i !in ix.listKeys;
    }
  }

  lemma LegacyTwice(ix: Index, scope: Scope, e: Edit)
    requires |ix.lists| == 0 && AllAgree(ix) && 0 in ix.listKeys
    ensures var after := ApplyEdit(ix, scope, e);
            AllAgree(after) <==> after.keys == KeysOf(after.rules) && after.listKeys[0] == KeysOf(after.rules)
  {
    hide KeysOf, EditListKeys, EditRules, GlobalSkips;
  }

  /** What an edit leaves alone: the other lists, and for a global edit every list. */
  ghost predicate OnlyScopeChanged(before: Index, after: Index, scope: Scope) {
    |after.lists| == |before.lists| && after.listKeys.Keys == before.listKeys.Keys &&
    (scope.InList? ==> after.rules == before.rules && after.keys == before.keys) &&
    forall i: nat :: i < |before.lists| && scope != InList(i) ==>
      after.lists[i] == before.lists[i] && (i in before.listKeys ==> after.listKeys[i] == before.listKeys[i])
  }

  /** The condition on a line under which agreement lasts. */
  predicate Safe(ix: Index, l: Line) {
    if |ix.lists| == 0 then LegacySafe(ix, l.scope, l.edit)
    else
      match l.scope
      case Global => GlobalSafe(Indexed(ix.keys, ix.rules), l.edit)
      case InList(i) =>
        i < |ix.lists| && i in ix.listKeys ==> ListSafe(Indexed(ix.listKeys[i], ix.lists[i].rules), l.edit)
  }

  /** From agreement a line ends in agreement exactly when it is safe; with lists it changes only what
      it names. */
  lemma {:induction false} EditKeepsAgreement(ix: Index, l: Line)
    requires AllAgree(ix)
    ensures var after := ApplyEdit(ix, l.scope, l.edit);
            (AllAgree(after) <==> Safe(ix, l)) && (|ix.lists| > 0 ==> OnlyScopeChanged(ix, after, l.scope))
  {
    hide KeysOf, EditListKeys, EditRules, GlobalSkips, ListSafe, GlobalSafe, LegacySafe;
    if |ix.lists| == 0 {
      LegacyEditExact(ix, l.scope, l.edit);
    } else {
      match l.scope
      case Global =>
        GlobalEditExact(Indexed(ix.keys, ix.rules), l.edit);
      case InList(i) =>
        if i < |ix.lists| {
          ListEditExact(Indexed(ix.listKeys[i], ix.lists[i].rules), l.edit);
          ListEditAgrees(ix, i, l.edit);
        }
    }
  }

  lemma ListEditAgrees(ix: Index, i: nat, e: Edit)
    requires AllAgree(ix) && i < |ix.lists|
    ensures AllAgree(ApplyEdit(ix, InList(i), e)) <==> Agrees(ListEdit(Indexed(ix.listKeys[i], ix.lists[i].rules), e))
  {
    hide KeysOf, EditListKeys, EditRules;
    var after := ApplyEdit(ix, InList(i), e);
    assert after.lists[i].rules == EditRules(ix.lists[i].rules, e);
  }

  // Runs.

  /** The indexes agree with the rules after every line, and at the start. */
  ghost predicate AgreesThroughout(ix: Index, lines: seq<Line>) {
    forall n :: 0 <= n <= |lines| ==> AllAgree(RunLines(ix, lines[..n]))
  }

  /** Every line is safe where it is applied. */
  ghost predicate SafeThroughout(ix: Index, lines: seq<Line>) {
    forall n :: 0 <= n < |lines| ==> Safe(RunLines(ix, lines[..n]), lines[n])
  }

  lemma AgreesMore(ix: Index, lines: seq<Line>)
    requires lines != []
    ensures AgreesThroughout(ix, lines) <==>
            AgreesThroughout(ix, lines[..|lines| - 1]) && AllAgree(RunLines(ix, lines))
  {
    hide AllAgree, RunLines;
    var front := lines[..|lines| - 1];
    assert lines[..|lines|] == lines;
    assert forall n :: 0 <= n < |lines| ==> front[..n] == lines[..n];
  }

  lemma SafeMore(ix: Index, lines: seq<Line>)
    requires lines != []
    ensures var front := lines[..|lines| - 1];
            SafeThroughout(ix, lines) <==>
            SafeThroughout(ix, front) && Safe(RunLines(ix, front), lines[|lines| - 1])
  {
    hide Safe, RunLines;
    var front := lines[..|lines| - 1];
    forall n | 0 <= n < |front|
      ensures Safe(RunLines(ix, front[..n]), front[n]) == Safe(RunLines(ix, lines[..n]), lines[n])
    {
      assert front[n] == lines[n] && front[..n] == lines[..n];
    }
  }

  lemma {:induction false} RunExact(ix: Index, lines: seq<Line>)
    requires AllAgree(ix)
    ensures AgreesThroughout(ix, lines) <==> SafeThroughout(ix, lines)
    ensures SafeThroughout(ix, lines) ==> AllAgree(RunLines(ix, lines))
  {
    hide AllAgree, Safe, ApplyEdit;
    if lines != [] {
      hide AgreesThroughout, SafeThroughout;
      var front, last := lines[..|lines| - 1], lines[|lines| - 1];
      RunExact(ix, front);
      AgreesMore(ix, lines);
      SafeMore(ix, lines);
      if SafeThroughout(ix, front) {
        EditKeepsAgreement(RunLines(ix, front), last);
      }
    }
  }

  lemma SeededAgrees(ipv4Name: string, ipv6Name: string, lists: seq<ListConfig>, rules: Rules)
    ensures AllAgree(Seeded(rules, lists, ListsInUse(ipv4Name, ipv6Name, lists, rules)))
  {
    hide KeysOf;
  }

  /** From every configuration, with or without lists, and over every run of edits: every index holds
      exactly its rules at every moment if and only if each line is safe where it is applied. */
  lemma {:induction false} RunsKeepAgreement(ipv4Name: string, ipv6Name: string, lists: seq<ListConfig>, rules: Rules,
      lines: seq<Line>)
    ensures var start := Seeded(rules, lists, ListsInUse(ipv4Name, ipv6Name, lists, rules));
            AgreesThroughout(start, lines) <==> SafeThroughout(start, lines)
  {
    hide AllAgree, Safe, ApplyEdit, RunLines, Seeded;
    SeededAgrees(ipv4Name, ipv6Name, lists, rules);
    RunExact(Seeded(rules, lists, ListsInUse(ipv4Name, ipv6Name, lists, rules)), lines);
  }

  lemma {:induction false} PrefixSafe(ix: Index, a: seq<Line>, b: seq<Line>)
    requires SafeThroughout(ix, a + b)
    ensures SafeThroughout(ix, a)
  {
    hide Safe, RunLines;
    forall n | 0 <= n < |a|
      ensures Safe(RunLines(ix, a[..n]), a[n])
    {
      assert (a + b)[n] == a[n] && (a + b)[..n] == a[..n];
    }
  }

  lemma {:induction false} CallsSafe(ix: Index, calls: seq<ApiCall>, n: nat)
    requires n <= |calls| && SafeThroughout(ix, AllLines(calls))
    ensures SafeThroughout(ix, AllLines(calls[..n]))
    decreases |calls|
  {
    hide SafeThroughout, CallLines;
    if n < |calls| {
      var front := calls[..|calls| - 1];
      PrefixSafe(ix, AllLines(front), CallLines(calls[|calls| - 1]));
      CallsSafe(ix, front, n);
      assert front[..n] == calls[..n];
    } else {
      assert calls[..n] == calls;
    }
  }

  /** The same over runs of requests: agreement after every line if and only if every line of every
      request is safe where it is applied, and then after every request. */
  lemma {:induction false} RequestsKeepAgreement(ipv4Name: string, ipv6Name: string, lists: seq<ListConfig>,
      rules: Rules, calls: seq<ApiCall>)
    ensures var start := Seeded(rules, lists, ListsInUse(ipv4Name, ipv6Name, lists, rules));
            (AgreesThroughout(start, AllLines(calls)) <==> SafeThroughout(start, AllLines(calls))) &&
            (SafeThroughout(start, AllLines(calls)) ==>
               forall n :: 0 <= n <= |calls| ==> AllAgree(RunCalls(start, calls[..n])))
  {
    hide AllAgree, AgreesThroughout, SafeThroughout, RunLines, RunCalls, AllLines, Seeded;
    var start := Seeded(rules, lists, ListsInUse(ipv4Name, ipv6Name, lists, rules));
    SeededAgrees(ipv4Name, ipv6Name, lists, rules);
    RunExact(start, AllLines(calls));
    if SafeThroughout(start, AllLines(calls)) {
      forall n | 0 <= n <= |calls|
        ensures AllAgree(RunCalls(start, calls[..n]))
      {
        CallsSafe(start, calls, n);
        RunExact(start, AllLines(calls[..n]));
        CallsAreLines(start, calls[..n]);
      }
    }
  }

  lemma {:induction false} RunKeepsLists(ix: Index, lines: seq<Line>)
    ensures var after := RunLines(ix, lines);
            |after.lists| == |ix.lists| && after.listKeys.Keys == ix.listKeys.Keys
  {
    hide EditListKeys, EditRules, GlobalEdit;
    if lines != [] {
      RunKeepsLists(ix, lines[..|lines| - 1]);
    }
  }

  /** The two conditions on rules under which their index answers every query as they mean it. */
  ghost predicate Matchable(r: Rules) {
    SuffixesReachable(r) && DomainsHarmless(r)
  }

  /** After a run of safe lines a list answers every query as its current rules mean it if and only if
      these rules, whatever the others are, meet the two conditions; so do the shared rules. */
  lemma {:induction false} RunsMatchAsMeant(ipv4Name: string, ipv6Name: string, lists: seq<ListConfig>, rules: Rules,
      lines: seq<Line>, i: nat)
    requires SafeThroughout(Seeded(rules, lists, ListsInUse(ipv4Name, ipv6Name, lists, rules)), lines)
    ensures var ix := RunLines(Seeded(rules, lists, ListsInUse(ipv4Name, ipv6Name, lists, rules)), lines);
            var now := ListsInUse(ipv4Name, ipv6Name, ix.lists, ix.rules);
            ((forall q :: FastMatch(ix.keys, q) <==> Intended(ix.rules, q)) <==> Matchable(ix.rules)) &&
            (i < |now| ==>
               i in ix.listKeys && ix.listKeys[i] == KeysOf(now[i].rules) &&
               ((forall q :: FastMatch(ix.listKeys[i], q) <==> Intended(now[i].rules, q)) <==>
                  Matchable(now[i].rules)))
  {
    hide Safe, ApplyEdit, FastMatch, Intended, KeysOf, SuffixesReachable, DomainsHarmless, RunLines;
    var start := Seeded(rules, lists, ListsInUse(ipv4Name, ipv6Name, lists, rules));
    SeededAgrees(ipv4Name, ipv6Name, lists, rules);
    RunExact(start, lines);
    RunKeepsLists(start, lines);
    var ix := RunLines(start, lines);
    var now := ListsInUse(ipv4Name, ipv6Name, ix.lists, ix.rules);
    MatchExact(ix.rules);
    if i < |now| {
      assert i in start.listKeys.Keys;
      MatchExact(now[i].rules);
    }
  }

  // Rules and lines of the documented form.

  /** Suffixes start with a dot and domains do not; suffixes may have any number of labels. */
  predicate DottedRules(r: Rules) {
    (forall d :: d in r.domains ==> WellFormedDomain(d)) && forall s :: s in r.suffixes ==> HasPrefix(s, ".")
  }

  ghost predicate AllDotted(ix: Index) {
    DottedRules(ix.rules) && forall i: nat :: i < |ix.lists| ==> DottedRules(ix.lists[i].rules)
  }

  /** The same for a line; a suffix added to a list must be its own lookup key, as one of two labels
      is. */
  predicate DottedLine(l: Line) {
    match l.edit
    case AddDomain(d) => WellFormedDomain(d)
    case RemoveDomain(d) => WellFormedDomain(d)
    case AddSuffix(s) => HasPrefix(s, ".") && (l.scope.InList? ==> SuffixKey(s) == s)
    case RemoveSuffix(s) => HasPrefix(s, ".")
  }

  predicate WellFormedEdit(e: Edit) {
    match e
    case AddDomain(d) => WellFormedDomain(d)
    case RemoveDomain(d) => WellFormedDomain(d)
    case AddSuffix(s) => WellFormedSuffix(s)
    case RemoveSuffix(s) => WellFormedSuffix(s)
  }

  lemma WellFormedIsDotted(l: Line)
    requires WellFormedEdit(l.edit)
    ensures DottedLine(l)
  {
    if l.edit.AddSuffix? {
      WellFormedSuffixKey(l.edit.line);
    }
  }

  lemma {:induction false} DottedIsSafe(x: Indexed, l: Line)
    requires DottedRules(x.rules) && DottedLine(l)
    ensures GlobalSafe(x, l.edit) && (l.scope.InList? ==> ListSafe(x, l.edit))
  {
    assert forall s :: s in x.rules.suffixes ==> Dotted(s) == s;
    if l.edit.RemoveSuffix? {
      assert forall s :: s in Without(x.rules.suffixes, l.edit.line) ==> Dotted(s) == s;
    }
  }

  /** On an agreeing index of such rules no global edit of the documented form is lost: its
      rule is there, or gone, afterwards. */
  lemma {:induction false} DocumentedEditsApply(x: Indexed, e: Edit)
    requires Agrees(x) && DottedRules(x.rules) && WellFormedEdit(e)
    ensures InForce(GlobalEdit(x, e).rules, e)
  {
    hide WellFormedSuffix, SuffixKey, Labels, GlobalEdit;
    EffectExact(x, e);
    assert forall s :: s in x.rules.suffixes ==> Dotted(s) == s;
    if e.AddSuffix? || e.RemoveSuffix? {
      WellFormedSuffixOwnKey(e.line);
    }
  }

  lemma WellFormedSuffixOwnKey(s: string)
    requires WellFormedSuffix(s)
    ensures HasPrefix(s, ".") && SuffixKey(s) == s
  {
    WellFormedSuffixKey(s);
  }

  lemma {:induction false} DottedStays(r: Rules, l: Line)
    requires DottedRules(r) && DottedLine(l)
    ensures DottedRules(EditRules(r, l.edit))
  {
    EditAmong(r, l.edit);
  }

  lemma {:induction false} WellFormedStays(r: Rules, e: Edit)
    requires WellFormed(r) && WellFormedEdit(e)
    ensures WellFormed(EditRules(r, e))
  {
    hide WellFormedDomain, WellFormedSuffix;
    EditAmong(r, e);
  }

  /** An edit brings in no rule but its own. */
  lemma EditAmong(r: Rules, e: Edit)
    ensures var after := EditRules(r, e);
            (forall d :: d in after.domains ==> d in r.domains || e == AddDomain(d)) &&
            (forall s :: s in after.suffixes ==> s in r.suffixes || e == AddSuffix(s))
  {
  }

  /** From a configuration with lists whose suffixes start with a dot and whose domains do not, every
      run of such lines is safe throughout, so every index holds exactly its rules. */
  lemma {:induction false} DottedRunsAgree(rules: Rules, lists: seq<ListConfig>, lines: seq<Line>)
    requires |lists| > 0 && AllDotted(Seeded(rules, lists, lists))
    requires forall l :: l in lines ==> DottedLine(l)
    ensures var start := Seeded(rules, lists, lists);
            SafeThroughout(start, lines) && AllAgree(RunLines(start, lines)) && AllDotted(RunLines(start, lines))
  {
    hide DottedLine, DottedRules, ApplyEdit, Safe;
    var start := Seeded(rules, lists, lists);
    SeededAgrees("", "", lists, rules);
    if lines != [] {
      var m := |lines| - 1;
      var front := lines[..m];
      DottedRunsAgree(rules, lists, front);
      RunKeepsLists(start, front);
      assert lines[m] in lines;
      DottedEdit(RunLines(start, front), lines[m]);
      EditKeepsAgreement(RunLines(start, front), lines[m]);
      SafeMore(start, lines);
    }
  }

  lemma DottedEdit(ix: Index, l: Line)
    requires |ix.lists| > 0 && AllAgree(ix) && AllDotted(ix) && DottedLine(l)
    ensures Safe(ix, l) && AllDotted(ApplyEdit(ix, l.scope, l.edit))
  {
    hide DottedLine, DottedRules, ListSafe, GlobalSafe, EditRules, EditListKeys;
    match l.scope
    case Global =>
      DottedIsSafe(Indexed(ix.keys, ix.rules), l);
      DottedStays(ix.rules, l);
    case InList(i) =>
      if i < |ix.lists| {
        DottedIsSafe(Indexed(ix.listKeys[i], ix.lists[i].rules), l);
        DottedStays(ix.lists[i].rules, l);
      }
  }

  /** In such a run a list whose own rules and lines have the documented form answers every query as
      its current rules mean it, however long the suffixes of the other lists are. */
  lemma {:induction false} WellFormedListMatches(rules: Rules, lists: seq<ListConfig>, lines: seq<Line>, i: nat,
      q: string)
    requires i < |lists| && AllDotted(Seeded(rules, lists, lists)) && WellFormed(lists[i].rules)
    requires forall l :: l in lines ==> DottedLine(l) && (l.scope == InList(i) ==> WellFormedEdit(l.edit))
    ensures var ix := RunLines(Seeded(rules, lists, lists), lines);
            i < |ix.lists| && i in ix.listKeys && (FastMatch(ix.listKeys[i], q) <==> Intended(ix.lists[i].rules, q))
  {
    hide ApplyEdit, DottedLine, FastMatch, Intended, WellFormed, KeysOf;
    DottedRunsAgree(rules, lists, lines);
    ListStaysWellFormed(Seeded(rules, lists, lists), lines, i);
    WellFormedMatches(RunLines(Seeded(rules, lists, lists), lines).lists[i].rules, q);
  }

  lemma {:induction false} ListStaysWellFormed(ix: Index, lines: seq<Line>, i: nat)
    requires i < |ix.lists| && WellFormed(ix.lists[i].rules)
    requires forall l :: l in lines && l.scope == InList(i) ==> WellFormedEdit(l.edit)
    ensures var after := RunLines(ix, lines); |after.lists| == |ix.lists| && WellFormed(after.lists[i].rules)
  {
    hide WellFormed, WellFormedEdit, EditRules, EditListKeys, GlobalEdit;
    if lines != [] {
      var front, last := lines[..|lines| - 1], lines[|lines| - 1];
      ListStaysWellFormed(ix, front, i);
      assert last in lines;
      if last.scope == InList(i) {
        WellFormedStays(RunLines(ix, front).lists[i].rules, last.edit);
      }
    }
  }

  /** Every line of the request has the documented form. */
  ghost predicate WellFormedCall(call: ApiCall) {
    forall l :: l in CallLines(call) ==> WellFormedEdit(l.edit)
  }

  lemma {:induction false} WellFormedLines(calls: seq<ApiCall>)
    requires forall c :: c in calls ==> WellFormedCall(c)
    ensures forall l :: l in AllLines(calls) ==> WellFormedEdit(l.edit)
  {
    hide WellFormedEdit, CallLines;
    if calls != [] {
      var last := calls[|calls| - 1];
      assert last in calls;
      WellFormedLines(calls[..|calls| - 1]);
    }
  }

  /** From a configuration with lists whose suffixes start with a dot and whose domains do not, every
      run of requests of the documented form ends with every index holding exactly its rules, and a list
      that started in the documented form answers every query as its current rules mean it. */
  lemma {:induction false} DocumentedRequests(rules: Rules, lists: seq<ListConfig>, calls: seq<ApiCall>, i: nat,
      q: string)
    requires i < |lists| && AllDotted(Seeded(rules, lists, lists))
    requires forall c :: c in calls ==> WellFormedCall(c)
    ensures var ix := RunCalls(Seeded(rules, lists, lists), calls);
            AllAgree(ix) && i < |ix.lists| && i in ix.listKeys &&
            (WellFormed(lists[i].rules) ==> (FastMatch(ix.listKeys[i], q) <==> Intended(ix.lists[i].rules, q)))
  {
    hide AllDotted, WellFormed, WellFormedEdit, DottedLine, FastMatch, Intended, RunCalls, AllLines, RunLines, KeysOf;
    var start, lines := Seeded(rules, lists, lists), AllLines(calls);
    WellFormedLines(calls);
    forall l | l in lines
      ensures DottedLine(l)
    {
      WellFormedIsDotted(l);
    }
    CallsAreLines(start, calls);
    DottedRunsAgree(rules, lists, lines);
    RunKeepsLists(start, lines);
    if WellFormed(lists[i].rules) {
      WellFormedListMatches(rules, lists, lines, i, q);
    }
  }
}
