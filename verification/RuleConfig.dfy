/** The rule lists of the configuration and the methods that edit them. */
module RuleConfig {
  import opened DomainMatch

  datatype ListConfig = ListConfig(name: string, enableIPv6: bool, timeout: nat, rules: Rules)

  function AddUnique(xs: seq<string>, x: string): seq<string> {
    if x in xs then xs else xs + [x]
  }

  function Without(xs: seq<string>, x: string): (ys: seq<string>)
    ensures forall y :: y in ys <==> y in xs && y != x
  {
    if xs == [] then []
    else
      var front, last := xs[..|xs| - 1], xs[|xs| - 1];
      assert xs == front + [last];
      Without(front, x) + if last == x then [] else [last]
  }

  /** Removing works piece by piece, so the order of the rest is kept. */
  lemma {:induction false} WithoutConcat(xs: seq<string>, ys: seq<string>, x: string)
    ensures Without(xs + ys, x) == Without(xs, x) + Without(ys, x)
    decreases |ys|
  {
    if ys == [] {
      assert xs + ys == xs;
    } else {
      assert (xs + ys)[..|xs + ys| - 1] == xs + ys[..|ys| - 1];
      WithoutConcat(xs, ys[..|ys| - 1], x);
    }
  }

  lemma {:induction false} WithoutAbsent(xs: seq<string>, x: string)
    requires x !in xs
    ensures Without(xs, x) == xs
  {
    if xs != [] {
      WithoutAbsent(xs[..|xs| - 1], x);
    }
  }

  /** Removing a rule undoes adding it, and adding it back after a removal puts it last. */
  lemma {:induction false} RemoveUndoesAdd(xs: seq<string>, x: string)
    ensures x !in xs ==> Without(AddUnique(xs, x), x) == xs
    ensures AddUnique(Without(xs, x), x) == Without(xs, x) + [x]
  {
    if x !in xs {
      WithoutConcat(xs, [x], x);
      WithoutAbsent(xs, x);
      assert [x][..0] == [] && Without([], x) == [];
    }
  }

  ghost predicate Distinct(xs: seq<string>) {
    forall i, j :: 0 <= i < j < |xs| ==> xs[i] != xs[j]
  }

  /** Adding and removing never bring a rule in twice. */
  lemma {:induction false} EditsStayDistinct(xs: seq<string>, x: string)
    requires Distinct(xs)
    ensures Distinct(AddUnique(xs, x)) && Distinct(Without(xs, x))
  {
    hide Distinct;
    if x !in xs {
      DistinctMore(xs, x);
    }
    if xs != [] {
      var front, last := xs[..|xs| - 1], xs[|xs| - 1];
      DistinctFront(xs);
      EditsStayDistinct(front, x);
      if last != x {
        DistinctMore(Without(front, x), last);
      } else {
        assert Without(front, x) + [] == Without(front, x);
      }
    }
  }

  lemma DistinctMore(xs: seq<string>, x: string)
    requires Distinct(xs) && x !in xs
    ensures Distinct(xs + [x])
  {
  }

  lemma DistinctFront(xs: seq<string>)
    requires Distinct(xs) && xs != []
    ensures Distinct(xs[..|xs| - 1]) && xs[|xs| - 1] !in xs[..|xs| - 1]
  {
  }

  method Appended(xs: seq<string>, x: string) returns (ys: seq<string>)
    ensures ys == AddUnique(xs, x)
  {
    for i := 0 to |xs|
      invariant x !in xs[..i]
    {
      if xs[i] == x {
        return xs;
      }
    }
    return xs + [x];
  }

  method Removed(xs: seq<string>, x: string) returns (ys: seq<string>)
    ensures ys == Without(xs, x)
  {
    ys := [];
    for i := 0 to |xs|
      invariant ys == Without(xs[..i], x)
    {
      assert xs[..i + 1][..i] == xs[..i];
      if xs[i] != x {
        ys := ys + [xs[i]];
      }
    }
    assert xs[..|xs|] == xs;
  }

  /** One line of an edit request. */
  datatype Edit =
    | AddDomain(line: string)
    | RemoveDomain(line: string)
    | AddSuffix(line: string)
    | RemoveSuffix(line: string)

  /** The effect of an edit on a rule list. */
  function EditRules(r: Rules, e: Edit): Rules {
    match e
    case AddDomain(d) => r.(domains := AddUnique(r.domains, d))
    case RemoveDomain(d) => r.(domains := Without(r.domains, d))
    case AddSuffix(s) => r.(suffixes := AddUnique(r.suffixes, s))
    case RemoveSuffix(s) => r.(suffixes := Without(r.suffixes, s))
  }

  /** The effect of a per-list edit: without lists, list 0 stands for the shared rules; an index
      out of range changes nothing. */
  function EditListRules(rules: Rules, lists: seq<ListConfig>, i: int, e: Edit): (Rules, seq<ListConfig>) {
    if |lists| == 0 then
      (if i == 0 then EditRules(rules, e) else rules, lists)
    else if 0 <= i < |lists| then
      (rules, lists[i := lists[i].(rules := EditRules(lists[i].rules, e))])
    else
      (rules, lists)
  }

  /** The configured lists, or the deprecated single list that shares the global rules. */
  function ListsInUse(ipv4Name: string, ipv6Name: string, lists: seq<ListConfig>, rules: Rules): seq<ListConfig> {
    if |lists| > 0 then lists
    else if ipv4Name != "" then [ListConfig(ipv4Name, ipv6Name != "", 0, rules)]
    else []
  }

  class Config {
    var ipv4Name: string
    var ipv6Name: string
    var lists: seq<ListConfig>
    var rules: Rules

    constructor (ipv4Name: string, ipv6Name: string, lists: seq<ListConfig>, rules: Rules)
      ensures this.ipv4Name == ipv4Name && this.ipv6Name == ipv6Name && this.lists == lists && this.rules == rules
    {
      this.ipv4Name, this.ipv6Name, this.lists, this.rules := ipv4Name, ipv6Name, lists, rules;
    }

    method AddDomain(domain: string)
      modifies this`rules
      ensures rules == EditRules(old(rules), Edit.AddDomain(domain))
    {
      var ds := Appended(rules.domains, domain);
      rules := rules.(domains := ds);
    }

    method RemoveDomain(domain: string)
      modifies this`rules
      ensures rules == EditRules(old(rules), Edit.RemoveDomain(domain))
    {
      var ds := Removed(rules.domains, domain);
      rules := rules.(domains := ds);
    }

    method AddSuffix(suffix: string)
      modifies this`rules
      ensures rules == EditRules(old(rules), Edit.AddSuffix(suffix))
    {
      var ss := Appended(rules.suffixes, suffix);
      rules := rules.(suffixes := ss);
    }

    method RemoveSuffix(suffix: string)
      modifies this`rules
      ensures rules == EditRules(old(rules), Edit.RemoveSuffix(suffix))
    {
      var ss := Removed(rules.suffixes, suffix);
      rules := rules.(suffixes := ss);
    }

    function GetIPSetLists(): seq<ListConfig>
      reads this
    {
      ListsInUse(ipv4Name, ipv6Name, lists, rules)
    }

    method AddDomainToList(i: int, domain: string)
      modifies this`rules, this`lists
      ensures (rules, lists) == EditListRules(old(rules), old(lists), i, Edit.AddDomain(domain))
    {
      if |lists| == 0 {
        if i != 0 {
          return;
        }
        AddDomain(domain);
        return;
      }
      if i < 0 || i >= |lists| {
        return;
      }
      var ds := Appended(lists[i].rules.domains, domain);
      lists := lists[i := lists[i].(rules := lists[i].rules.(domains := ds))];
    }

    method RemoveDomainFromList(i: int, domain: string)
      modifies this`rules, this`lists
      ensures (rules, lists) == EditListRules(old(rules), old(lists), i, Edit.RemoveDomain(domain))
    {
      if |lists| == 0 {
        if i != 0 {
          return;
        }
        RemoveDomain(domain);
        return;
      }
      if i < 0 || i >= |lists| {
        return;
      }
      var ds := Removed(lists[i].rules.domains, domain);
      lists := lists[i := lists[i].(rules := lists[i].rules.(domains := ds))];
    }

    method AddSuffixToList(i: int, suffix: string)
      modifies this`rules, this`lists
      ensures (rules, lists) == EditListRules(old(rules), old(lists), i, Edit.AddSuffix(suffix))
    {
      if |lists| == 0 {
        if i != 0 {
          return;
        }
        AddSuffix(suffix);
        return;
      }
      if i < 0 || i >= |lists| {
        return;
      }
      var ss := Appended(lists[i].rules.suffixes, suffix);
      lists := lists[i := lists[i].(rules := lists[i].rules.(suffixes := ss))];
    }

    method RemoveSuffixFromList(i: int, suffix: string)
      modifies this`rules, this`lists
      ensures (rules, lists) == EditListRules(old(rules), old(lists), i, Edit.RemoveSuffix(suffix))
    {
      if |lists| == 0 {
        if i != 0 {
          return;
        }
        RemoveSuffix(suffix);
        return;
      }
      if i < 0 || i >= |lists| {
        return;
      }
      var ss := Removed(lists[i].rules.suffixes, suffix);
      lists := lists[i := lists[i].(rules := lists[i].rules.(suffixes := ss))];
    }
  }
}
