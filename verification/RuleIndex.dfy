/** The API's edits of rules and of the key sets that index them: when an edit has
    effect, and when it keeps index and rules in agreement. */
module RuleIndex {
  import opened Text
  import opened DomainMatch
  import opened RuleConfig

  /** A per-list edit of a key set; it consults only the key set. */
  function EditListKeys(keys: set<string>, e: Edit): set<string> {
    match e
    case AddDomain(d) => keys + {d}
    case RemoveDomain(d) => keys - {d}
    case AddSuffix(s) => if SuffixKey(s) in keys then keys else keys + {Dotted(s)}
    case RemoveSuffix(s) => keys - {s}
  }

  /** Global edits first ask the key set whether there is anything to do. */
  predicate GlobalSkips(keys: set<string>, e: Edit) {
    match e
    case AddDomain(d) => d in keys
    case RemoveDomain(d) => d !in keys
    case AddSuffix(s) => SuffixKey(s) in keys
    case RemoveSuffix(s) => SuffixKey(s) !in keys
  }

  datatype Indexed = Indexed(keys: set<string>, rules: Rules)

  function GlobalEdit(x: Indexed, e: Edit): Indexed {
    if GlobalSkips(x.keys, e) then x else Indexed(EditListKeys(x.keys, e), EditRules(x.rules, e))
  }

  function ListEdit(x: Indexed, e: Edit): Indexed {
    Indexed(EditListKeys(x.keys, e), EditRules(x.rules, e))
  }

  predicate Agrees(x: Indexed) {
    x.keys == KeysOf(x.rules)
  }

  /** Deleting the key s together with the suffix rule s loses no rule and leaves no stale key. */
  predicate SuffixRemovable(r: Rules, s: string) {
    var rest := DottedSet(Without(r.suffixes, s));
    s !in r.domains && s !in rest &&
    (s in r.suffixes && !HasPrefix(s, ".") ==> Dotted(s) in r.domains || Dotted(s) in rest)
  }

  /** The condition on a per-list edit under which it keeps agreement. */
  predicate ListSafe(x: Indexed, e: Edit) {
    match e
    case AddDomain(_) => true
    case RemoveDomain(d) => d !in DottedSet(x.rules.suffixes)
    case AddSuffix(s) => SuffixKey(s) in x.keys ==> Dotted(s) in x.keys
    case RemoveSuffix(s) => SuffixRemovable(x.rules, s)
  }

  predicate GlobalSafe(x: Indexed, e: Edit) {
    match e
    case AddDomain(_) => true
    case RemoveDomain(d) => d !in DottedSet(x.rules.suffixes)
    case AddSuffix(s) => true
    case RemoveSuffix(s) => SuffixKey(s) in x.keys ==> SuffixRemovable(x.rules, s)
  }

  lemma DottedAdd(ss: seq<string>, s: string)
    ensures DottedSet(AddUnique(ss, s)) == DottedSet(ss) + {Dotted(s)}
  {
    if s !in ss {
      assert forall t :: t in ss + [s] <==> t in ss || t == s;
      assert s in AddUnique(ss, s);
    }
  }

  lemma DottedWithout(ss: seq<string>, s: string)
    ensures DottedSet(ss) == DottedSet(Without(ss, s)) + if s in ss then {Dotted(s)} else {}
  {
    forall t | t in DottedSet(ss)
      ensures t in DottedSet(Without(ss, s)) + if s in ss then {Dotted(s)} else {}
    {
      var u :| u in ss && Dotted(u) == t;
      assert u == s || u in Without(ss, s);
    }
  }

  /** From an agreeing state a per-list edit ends in an agreeing state exactly when it is safe. */
  lemma {:induction false} ListEditExact(x: Indexed, e: Edit)
    requires Agrees(x)
    ensures Agrees(ListEdit(x, e)) <==> ListSafe(x, e)
  {
    match e
    case AddDomain(d) =>
      assert forall t :: t in AddUnique(x.rules.domains, d) <==> t in x.rules.domains || t == d;
    case RemoveDomain(d) =>
      RemoveDomainExact(x, d);
    case AddSuffix(s) =>
      DottedAdd(x.rules.suffixes, s);
      assert KeysOf(EditRules(x.rules, e)) == x.keys + {Dotted(s)};
    case RemoveSuffix(s) =>
      RemoveSuffixExact(x, s);
  }

  lemma {:induction false} RemoveDomainExact(x: Indexed, d: string)
    requires Agrees(x)
    ensures Agrees(ListEdit(x, RemoveDomain(d))) <==> d !in DottedSet(x.rules.suffixes)
  {
    var after := KeysOf(EditRules(x.rules, RemoveDomain(d)));
    assert forall t :: t in after <==> (t in x.rules.domains && t != d) || t in DottedSet(x.rules.suffixes);
    assert forall t :: t in x.keys - {d} <==> (t in x.rules.domains || t in DottedSet(x.rules.suffixes)) && t != d;
    if d in DottedSet(x.rules.suffixes) {
      assert d in after;
    }
  }

  lemma {:induction false} RemoveSuffixExact(x: Indexed, s: string)
    requires Agrees(x)
    ensures Agrees(ListEdit(x, RemoveSuffix(s))) <==> SuffixRemovable(x.rules, s)
  {
    var rest := DottedSet(Without(x.rules.suffixes, s));
    var after := KeysOf(EditRules(x.rules, RemoveSuffix(s)));
    DottedWithout(x.rules.suffixes, s);
    assert forall t :: t in after <==> t in x.rules.domains || t in rest;
    assert forall t :: t in x.keys <==> t in x.rules.domains || t in rest || (s in x.rules.suffixes && t == Dotted(s));
    if SuffixRemovable(x.rules, s) {
      assert x.keys - {s} == after;
    } else if s in x.rules.domains || s in rest {
      assert s in after;
    } else {
      assert Dotted(s) in x.keys - {s} && Dotted(s) !in after;
    }
  }

  /** A suffix rule stored without its dot is indexed with it, and deleting it as it is written
      leaves its key behind. */
  lemma {:induction false} UndottedSuffixStays(s: string)
    requires !HasPrefix(s, ".")
    ensures var x := Indexed({Dotted(s)}, Rules([], [s]));
            Agrees(x) && !Agrees(ListEdit(x, RemoveSuffix(s))) &&
                ListEdit(x, RemoveSuffix(s)) == Indexed({Dotted(s)}, Rules([], []))
  {
    var r := Rules([], [s]);
    assert s in r.suffixes && forall t :: t in r.suffixes ==> t == s;
    assert KeysOf(r) == {Dotted(s)};
    assert [s][..0] == [] && Without([], s) == [];
    assert Dotted(s) !in KeysOf(Rules([], []));
  }

  /** The same for a global edit, whose lookups make it safe more often. */
  lemma {:induction false} GlobalEditExact(x: Indexed, e: Edit)
    requires Agrees(x)
    ensures Agrees(GlobalEdit(x, e)) <==> GlobalSafe(x, e)
  {
    if GlobalSkips(x.keys, e) {
      assert e.RemoveDomain? ==> e.line !in DottedSet(x.rules.suffixes);
    } else {
      ListEditExact(x, e);
    }
  }

  /** The rules are as the edit wants them. */
  predicate InForce(r: Rules, e: Edit) {
    match e
    case AddDomain(d) => d in r.domains
    case RemoveDomain(d) => d !in r.domains
    case AddSuffix(s) => s in r.suffixes
    case RemoveSuffix(s) => s !in r.suffixes
  }

  /** A global edit is silently skipped where its lookup says so: its rule is added, or gone, if and
      only if it was before or the lookup lets the edit through. A per-list edit always has effect. */
  lemma {:induction false} EffectExact(x: Indexed, e: Edit)
    ensures InForce(ListEdit(x, e).rules, e)
    ensures InForce(GlobalEdit(x, e).rules, e) <==>
            match e
            case AddDomain(d) => d in x.rules.domains || d !in x.keys
            case RemoveDomain(d) => d !in x.rules.domains || d in x.keys
            case AddSuffix(s) => s in x.rules.suffixes || SuffixKey(s) !in x.keys
            case RemoveSuffix(s) => s !in x.rules.suffixes || SuffixKey(s) in x.keys
  {
  }

  /** A suffix added by a global request is taken back by a global request if and only if it is its own
      lookup key. */
  lemma {:induction false} GlobalUndoExact(x: Indexed, s: string)
    requires s !in x.rules.suffixes && SuffixKey(s) !in x.keys
    ensures GlobalEdit(GlobalEdit(x, AddSuffix(s)), RemoveSuffix(s)) == x <==> SuffixKey(s) == s
  {
    hide SuffixKey;
    var y := GlobalEdit(x, AddSuffix(s));
    RemoveUndoesAdd(x.rules.suffixes, s);
    if SuffixKey(s) == s {
      assert Dotted(s) == s by { OwnKeyIsDotted(s); }
      assert y.keys - {s} == x.keys;
    } else if SuffixKey(s) !in y.keys {
      assert s in y.rules.suffixes;
    } else {
      assert SuffixKey(s) == Dotted(s) && Dotted(s) in y.keys - {s};
    }
  }

  lemma OwnKeyIsDotted(s: string)
    requires SuffixKey(s) == s
    ensures Dotted(s) == s
  {
  }

  /** A global request cannot delete a lone suffix rule of three or more labels. */
  lemma {:induction false} LongSuffixStays(labels: seq<string>)
    requires |labels| >= 3 && forall j :: 0 <= j < |labels| ==> '.' !in labels[j]
    ensures var s := "." + Join(labels, '.');
            var x := Indexed({s}, Rules([], [s]));
            Agrees(x) && GlobalEdit(x, RemoveSuffix(s)) == x
  {
    var s := "." + Join(labels, '.');
    assert s in [s] && Dotted(s) == s;
    assert KeysOf(Rules([], [s])) == {s};
    LongSuffixNeverHit(labels, s);
  }

  /** The index as a whole: the global rules and the lists, each with its key set. */
  datatype Index = Index(rules: Rules, keys: set<string>, lists: seq<ListConfig>, listKeys: map<nat, set<string>>)

  datatype Scope = Global | InList(i: nat)

  function ApplyEdit(ix: Index, scope: Scope, e: Edit): Index {
    match scope
    case Global =>
      var x := GlobalEdit(Indexed(ix.keys, ix.rules), e);
      ix.(keys := x.keys, rules := x.rules)
    case InList(i) =>
      var (rules, lists) := EditListRules(ix.rules, ix.lists, i, e);
      Index(rules, ix.keys, lists, if i in ix.listKeys then ix.listKeys[i := EditListKeys(ix.listKeys[i], e)]
          else ix.listKeys)
  }

  datatype Kind = PostDomains | DeleteDomains | PostSuffixes | DeleteSuffixes

  function EditOf(kind: Kind, line: string): Edit {
    match kind
    case PostDomains => AddDomain(line)
    case DeleteDomains => RemoveDomain(line)
    case PostSuffixes => AddSuffix(line)
    case DeleteSuffixes => RemoveSuffix(line)
  }

  /** One line of a request. */
  datatype Line = Line(scope: Scope, edit: Edit)

  function RunLines(ix: Index, lines: seq<Line>): Index {
    if lines == [] then ix
    else
      var last := lines[|lines| - 1];
      ApplyEdit(RunLines(ix, lines[..|lines| - 1]), last.scope, last.edit)
  }

  /** The lines of a request body; blank ones are skipped. */
  function BodyLines(scope: Scope, kind: Kind, texts: seq<string>): seq<Line> {
    if texts == [] then []
    else
      var text := TrimSpace(texts[|texts| - 1]);
      BodyLines(scope, kind, texts[..|texts| - 1]) + if text == "" then [] else [Line(scope, EditOf(kind, text))]
  }

  datatype ApiCall = ApiCall(scope: Scope, kind: Kind, body: string)

  function CallLines(call: ApiCall): seq<Line> {
    BodyLines(call.scope, call.kind, Split(call.body, '\n'))
  }

  /** Requests one after the other. */
  function RunCalls(ix: Index, calls: seq<ApiCall>): Index {
    if calls == [] then ix
    else RunLines(RunCalls(ix, calls[..|calls| - 1]), CallLines(calls[|calls| - 1]))
  }

  /** The lines of a run of requests. */
  function AllLines(calls: seq<ApiCall>): seq<Line> {
    if calls == [] then [] else AllLines(calls[..|calls| - 1]) + CallLines(calls[|calls| - 1])
  }

  lemma {:induction false} LinesCompose(ix: Index, a: seq<Line>, b: seq<Line>)
    ensures RunLines(ix, a + b) == RunLines(RunLines(ix, a), b)
    decreases |b|
  {
    hide ApplyEdit;
    if b == [] {
      assert a + b == a;
    } else {
      assert (a + b)[..|a + b| - 1] == a + b[..|b| - 1];
      LinesCompose(ix, a, b[..|b| - 1]);
    }
  }

  /** A run of requests is the run of all their lines. */
  lemma {:induction false} CallsAreLines(ix: Index, calls: seq<ApiCall>)
    ensures RunCalls(ix, calls) == RunLines(ix, AllLines(calls))
  {
    hide CallLines, RunLines;
    if calls == [] {
      assert RunLines(ix, []) == ix by { NoLines(ix); }
    } else {
      CallsAreLines(ix, calls[..|calls| - 1]);
      LinesCompose(ix, AllLines(calls[..|calls| - 1]), CallLines(calls[|calls| - 1]));
    }
  }

  lemma NoLines(ix: Index)
    ensures RunLines(ix, []) == ix
  {
  }

  lemma OneLine(ix: Index, lines: seq<Line>, l: Line)
    ensures RunLines(ix, lines + [l]) == ApplyEdit(RunLines(ix, lines), l.scope, l.edit)
  {
    hide ApplyEdit;
    assert (lines + [l])[..|lines|] == lines;
  }

  /** The index built at startup. */
  function Seeded(rules: Rules, lists: seq<ListConfig>, view: seq<ListConfig>): Index {
    Index(rules, KeysOf(rules), lists, map i: nat | i < |view| :: KeysOf(view[i].rules))
  }

  class Handlers {
    const cfg: Config
    const domainCache: DomainCache
    const listDomainCaches: map<nat, DomainCache>

    ghost predicate Valid() {
      (forall i :: i in listDomainCaches ==> listDomainCaches[i] != domainCache) &&
      forall i, j :: i in listDomainCaches && j in listDomainCaches && i != j ==>
          listDomainCaches[i] != listDomainCaches[j]
    }

    ghost function View(): Index
      reads cfg, domainCache, listDomainCaches.Values
    {
      Index(cfg.rules, domainCache.keys, cfg.lists, map i | i in listDomainCaches :: listDomainCaches[i].keys)
    }

    /** Startup: fills the global cache and one cache a list from the loaded configuration. */
    constructor (cfg: Config)
      ensures Valid() && this.cfg == cfg
      ensures View() == Seeded(cfg.rules, cfg.lists, cfg.GetIPSetLists())
    {
      hide KeysOf, ListsInUse;
      var shared := new DomainCache();
      FillCache(shared, cfg.rules);
      var view := cfg.GetIPSetLists();
      var caches: map<nat, DomainCache> := map[];
      for i := 0 to |view|
        invariant shared.keys == KeysOf(cfg.rules)
        invariant forall k: nat :: k in caches <==> k < i
        invariant forall k :: k in caches ==> caches[k] != shared && caches[k].keys == KeysOf(view[k].rules)
        invariant forall k :: k in caches ==> fresh(caches[k])
        invariant forall k, l :: k in caches && l in caches && k != l ==> caches[k] != caches[l]
      {
        var listCache := new DomainCache();
        FillCache(listCache, view[i].rules);
        caches := caches[i := listCache];
      }
      this.cfg, domainCache, listDomainCaches := cfg, shared, caches;
    }

    method AddDomain(domain: string)
      requires Valid()
      modifies cfg, domainCache
      ensures View() == ApplyEdit(old(View()), Global, Edit.AddDomain(domain))
    {
      if !domainCache.Contains(domain) {
        domainCache.Add(domain);
        cfg.AddDomain(domain);
      }
    }

    method RemoveDomain(domain: string)
      requires Valid()
      modifies cfg, domainCache
      ensures View() == ApplyEdit(old(View()), Global, Edit.RemoveDomain(domain))
    {
      if domainCache.Contains(domain) {
        domainCache.Remove(domain);
        cfg.RemoveDomain(domain);
      }
    }

    method AddSuffix(suffix: string)
      requires Valid()
      modifies cfg, domainCache
      ensures View() == ApplyEdit(old(View()), Global, Edit.AddSuffix(suffix))
    {
      var found := domainCache.ContainsSuffix(suffix);
      if !found {
        domainCache.AddSuffix(suffix);
        cfg.AddSuffix(suffix);
      }
    }

    method RemoveSuffix(suffix: string)
      requires Valid()
      modifies cfg, domainCache
      ensures View() == ApplyEdit(old(View()), Global, Edit.RemoveSuffix(suffix))
    {
      var found := domainCache.ContainsSuffix(suffix);
      if found {
        domainCache.Remove(suffix);
        cfg.RemoveSuffix(suffix);
      }
    }

    method AddListDomain(list: nat, domain: string)
      requires Valid()
      modifies cfg, listDomainCaches.Values
      ensures View() == ApplyEdit(old(View()), InList(list), Edit.AddDomain(domain))
    {
      assert list in listDomainCaches && domain in listDomainCaches[list].keys ==>
          listDomainCaches[list].keys + {domain} == listDomainCaches[list].keys;
      cfg.AddDomainToList(list, domain);
      if list in listDomainCaches && !listDomainCaches[list].Contains(domain) {
        listDomainCaches[list].Add(domain);
      }
    }

    method RemoveListDomain(list: nat, domain: string)
      requires Valid()
      modifies cfg, listDomainCaches.Values
      ensures View() == ApplyEdit(old(View()), InList(list), Edit.RemoveDomain(domain))
    {
      cfg.RemoveDomainFromList(list, domain);
      if list in listDomainCaches {
        listDomainCaches[list].Remove(domain);
      }
    }

    method AddListSuffix(list: nat, suffix: string)
      requires Valid()
      modifies cfg, listDomainCaches.Values
      ensures View() == ApplyEdit(old(View()), InList(list), Edit.AddSuffix(suffix))
    {
      hide EditRules, SuffixKey, Dotted;
      cfg.AddSuffixToList(list, suffix);
      if list in listDomainCaches {
        var found := listDomainCaches[list].ContainsSuffix(suffix);
        if !found {
          listDomainCaches[list].AddSuffix(suffix);
        }
      }
    }

    method RemoveListSuffix(list: nat, suffix: string)
      requires Valid()
      modifies cfg, listDomainCaches.Values
      ensures View() == ApplyEdit(old(View()), InList(list), Edit.RemoveSuffix(suffix))
    {
      hide EditRules;
      cfg.RemoveSuffixFromList(list, suffix);
      if list in listDomainCaches {
        listDomainCaches[list].Remove(suffix);
      }
    }

    method EditLine(scope: Scope, e: Edit)
      requires Valid()
      modifies cfg, domainCache, listDomainCaches.Values
      ensures View() == ApplyEdit(old(View()), scope, e)
    {
      match scope {
        case Global =>
          match e {
            case AddDomain(d) => AddDomain(d);
            case RemoveDomain(d) => RemoveDomain(d);
            case AddSuffix(s) => AddSuffix(s);
            case RemoveSuffix(s) => RemoveSuffix(s);
          }
        case InList(i) =>
          match e {
            case AddDomain(d) => AddListDomain(i, d);
            case RemoveDomain(d) => RemoveListDomain(i, d);
            case AddSuffix(s) => AddListSuffix(i, s);
            case RemoveSuffix(s) => RemoveListSuffix(i, s);
          }
      }
    }

    /** The loop over the lines of a request body, common to the eight edit requests. */
    method Handle(call: ApiCall)
      requires Valid()
      modifies cfg, domainCache, listDomainCaches.Values
      ensures View() == RunLines(old(View()), CallLines(call))
    {
      hide ApplyEdit, Split;
      var texts := Split(call.body, '\n');
      for i := 0 to |texts|
        invariant View() == RunLines(old(View()), BodyLines(call.scope, call.kind, texts[..i]))
      {
        ghost var before := BodyLines(call.scope, call.kind, texts[..i]);
        assert texts[..i + 1][..i] == texts[..i] && before + [] == before;
        var text := TrimSpace(texts[i]);
        if text != "" {
          OneLine(old(View()), before, Line(call.scope, EditOf(call.kind, text)));
          EditLine(call.scope, EditOf(call.kind, text));
        }
      }
      assert texts[..|texts|] == texts;
    }
  }

  /** Adds the rules of one list to its cache. */
  method FillCache(cache: DomainCache, rules: Rules)
    modifies cache
    ensures cache.keys == old(cache.keys) + KeysOf(rules)
  {
    for i := 0 to |rules.domains|
      invariant cache.keys == old(cache.keys) + set d | d in rules.domains[..i]
    {
      assert rules.domains[..i + 1] == rules.domains[..i] + [rules.domains[i]];
      cache.Add(rules.domains[i]);
    }
    assert rules.domains[..|rules.domains|] == rules.domains;
    ghost var afterDomains := cache.keys;
    for i := 0 to |rules.suffixes|
      invariant cache.keys == afterDomains + DottedSet(rules.suffixes[..i])
    {
      assert rules.suffixes[..i + 1] == rules.suffixes[..i] + [rules.suffixes[i]];
      cache.AddSuffix(rules.suffixes[i]);
    }
    assert rules.suffixes[..|rules.suffixes|] == rules.suffixes;
  }
}
