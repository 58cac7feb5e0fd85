/** The flat key set in which domain rules and suffix rules are indexed, the lookups made
    in it, and the exact relation of those lookups to the meaning of the rules. */
module DomainMatch {
  import opened Options
  import opened Text

  datatype Rules = Rules(domains: seq<string>, suffixes: seq<string>)

  function Dotted(s: string): (r: string)
    ensures HasPrefix(r, ".") && (r == s || r == "." + s)
    ensures HasPrefix(s, ".") ==> r == s
  {
    if HasPrefix(s, ".") then s else "." + s
  }

  function DottedSet(suffixes: seq<string>): set<string> {
    set s | s in suffixes :: Dotted(s)
  }

  /** What the index of a rule list holds: domains and suffixes share one key space. */
  function KeysOf(r: Rules): set<string> {
    (set d | d in r.domains) + DottedSet(r.suffixes)
  }

  /** What the rules mean: a domain rule names one domain, a suffix rule its domain and every
      name below it. */
  ghost predicate Intended(r: Rules, q: string) {
    q in r.domains || exists s :: s in r.suffixes && HasSuffix("." + q, Dotted(s))
  }

  /** The key a suffix lookup reads: at most the last two labels, with a leading dot. */
  function SuffixKey(domain: string): string {
    var parts := Labels(domain);
    Dotted(if |parts| > 2 then Join(parts[|parts| - 2..], '.') else domain)
  }

  function Labels(name: string): (labels: seq<string>)
    ensures |labels| >= 1
  {
    Split(name, '.')
  }

  /** The answer of the whole matching procedure on a key set, label offset by label offset. */
  ghost predicate FastMatch(keys: set<string>, q: string) {
    var parts := Labels(q);
    q in keys ||
    exists i {:trigger parts[i..]} :: 0 <= i <= |parts| - 2 && SuffixKey("." + Join(parts[i..], '.')) in keys
  }

  lemma TrimDotOnly(domain: string)
    ensures forall q :: domain == q + "." ==> q == TrimDot(domain)
    ensures domain == "" || domain[|domain| - 1] != '.' ==> TrimDot(domain) == domain
  {
    hide TrimDot;
    forall q | domain == q + "."
      ensures q == TrimDot(domain)
    {
      TrimDotExact(q);
    }
    TrimDotExact(domain);
  }

  class DomainCache {
    var keys: set<string>

    constructor ()
      ensures keys == {}
    {
      keys := {};
    }

    method Add(domain: string)
      modifies this
      ensures keys == old(keys) + {domain}
    {
      keys := keys + {domain};
    }

    method AddSuffix(suffix: string)
      modifies this
      ensures keys == old(keys) + {Dotted(suffix)}
    {
      var stored := suffix;
      if !HasPrefix(suffix, ".") {
        stored := "." + suffix;
      }
      keys := keys + {stored};
    }

    method Remove(domain: string)
      modifies this
      ensures keys == old(keys) - {domain}
    {
      keys := keys - {domain};
    }

    predicate Contains(domain: string)
      reads this
    {
      domain in keys
    }

    method ContainsSuffix(domain: string) returns (found: bool)
      ensures found <==> SuffixKey(domain) in keys
    {
      var parts := Labels(domain);
      var name := domain;
      if |parts| > 2 {
        name := Join(parts[|parts| - 2..], '.');
      }
      if !HasPrefix(name, ".") {
        name := "." + name;
      }
      found := name in keys;
    }

    /** The lookups made for a query: the name itself, then a suffix lookup at every label
        offset that leaves at least two labels. */
    method Matches(domain: string) returns (found: bool)
      ensures found <==> FastMatch(keys, TrimDot(domain))
      ensures forall q :: domain == q + "." ==> (found <==> FastMatch(keys, q))
      ensures domain == "" || domain[|domain| - 1] != '.' ==> (found <==> FastMatch(keys, domain))
    {
      hide SuffixKey, Join, Split, TrimDot;
      TrimDotOnly(domain);
      var name := TrimDot(domain);
      if Contains(name) {
        return true;
      }
      var parts := Labels(name);
      var i := 0;
      while i <= |parts| - 2
        invariant 0 <= i <= |parts|
        invariant forall j {:trigger parts[j..]} :: 0 <= j < i && j <= |parts| - 2 ==>
            SuffixKey("." + Join(parts[j..], '.')) !in keys
      {
        var suffix := "." + Join(parts[i..], '.');
        found := ContainsSuffix(suffix);
        if found {
          return true;
        }
        i := i + 1;
      }
      return false;
    }
  }

  /** The one key that decides the suffix lookups of a name with two or more labels. */
  function LookupKey(labels: seq<string>): string
    requires |labels| >= 2
  {
    Dotted(Join(labels[|labels| - 2..], '.'))
  }

  /** Matching as one exact lookup and at most one suffix lookup. */
  predicate KeyMatch(keys: set<string>, q: string) {
    q in keys || (|Labels(q)| >= 2 && LookupKey(Labels(q)) in keys)
  }

  lemma {:induction false} OffsetKey(parts: seq<string>, i: nat)
    requires i <= |parts| - 2
    requires forall j :: 0 <= j < |parts| ==> '.' !in parts[j]
    ensures SuffixKey("." + Join(parts[i..], '.')) == LookupKey(parts)
  {
    hide Split, Join, Dotted;
    SplitLeading(Join(parts[i..], '.'), '.');
    SplitJoin(parts[i..], '.');
    assert "." + Join(parts[i..], '.') == ['.'] + Join(parts[i..], '.');
    assert ([""] + parts[i..])[|parts| - i - 1..] == parts[|parts| - 2..];
  }

  /** The loop over all label offsets is a single lookup of the last two labels, and a name of
      one label is never matched by a suffix. This holds for every key set. */
  lemma {:induction false} MatchClosedForm(keys: set<string>, q: string)
    ensures FastMatch(keys, q) <==> KeyMatch(keys, q)
  {
    JoinSplit(q, '.');
    if |Labels(q)| >= 2 {
      FirstOffset(Labels(q));
    }
    forall i | 0 <= i <= |Labels(q)| - 2
      ensures SuffixKey("." + Join(Labels(q)[i..], '.')) == LookupKey(Labels(q))
    {
      OffsetKey(Labels(q), i);
    }
  }

  lemma FirstOffset(parts: seq<string>)
    requires |parts| >= 2
    requires forall j :: 0 <= j < |parts| ==> '.' !in parts[j]
    ensures SuffixKey("." + Join(parts[0..], '.')) == LookupKey(parts)
  {
    OffsetKey(parts, 0);
  }

  /** The key in terms of the last two labels. */
  function PairKey(a: string, b: string): string {
    if a == "" then "." + b else "." + (a + ['.'] + b)
  }

  /** The suffix whose names read the key of the labels a, b. */
  function PairSuffix(a: string, b: string): string {
    "." + (a + ['.'] + b)
  }

  lemma {:induction false} LookupKeyShape(labels: seq<string>)
    requires |labels| >= 2 && '.' !in labels[|labels| - 2]
    ensures LookupKey(labels) == PairKey(labels[|labels| - 2], labels[|labels| - 1])
  {
    var a, b := labels[|labels| - 2], labels[|labels| - 1];
    assert labels[|labels| - 2..] == [a, b];
    JoinTwo(a, b, '.');
    if a == "" {
      assert a + ['.'] + b == "." + b;
    } else {
      assert (a + ['.'] + b)[0] == a[0];
    }
  }

  /** The key of a suffix lookup has at most two labels after its dot. */
  lemma {:induction false} SuffixKeyShort(domain: string)
    ensures |Labels(SuffixKey(domain))| <= 3
  {
    var parts := Labels(domain);
    JoinSplit(domain, '.');
    var name := if |parts| > 2 then Join(parts[|parts| - 2..], '.') else domain;
    if |parts| > 2 {
      SplitJoin(parts[|parts| - 2..], '.');
    }
    SplitLeading(name, '.');
  }

  /** A stored suffix of three or more labels without dots is the key of no suffix lookup, whatever is
      looked up. */
  lemma {:induction false} LongSuffixNeverHit(labels: seq<string>, domain: string)
    requires |labels| >= 3
    requires forall j :: 0 <= j < |labels| ==> '.' !in labels[j]
    ensures SuffixKey(domain) != "." + Join(labels, '.')
  {
    SuffixKeyShort(domain);
    SplitLeading(Join(labels, '.'), '.');
    SplitJoin(labels, '.');
  }

  /** The labels of u end the labels of q. */
  predicate EndsLabels(q: string, u: string) {
    |Labels(u)| <= |Labels(q)| && Labels(q)[|Labels(q)| - |Labels(u)|..] == Labels(u)
  }

  lemma {:induction false} UnderToEnds(q: string, u: string)
    requires HasSuffix("." + q, "." + u)
    ensures EndsLabels(q, u)
  {
    var n := |q| - |u|;
    assert ("." + q)[n..] == "." + u;
    assert q[n..] == ("." + q)[n + 1..] == u;
    if n == 0 {
      assert q == u;
    } else {
      assert q[n - 1] == ("." + q)[n] == '.';
      assert q == q[..n - 1] + ['.'] + u;
      SplitConcat(q[..n - 1], u, '.');
    }
  }

  lemma {:induction false} EndsToUnder(q: string, u: string)
    requires EndsLabels(q, u)
    ensures HasSuffix("." + q, "." + u)
  {
    hide Split, Join, HasSuffix;
    JoinSplit(q, '.');
    JoinSplit(u, '.');
    var front := Labels(q)[..|Labels(q)| - |Labels(u)|];
    assert Labels(q) == front + Labels(u);
    PrefixExact("." + q, "." + u);
    if front == [] {
      assert Labels(q) == Labels(u);
      assert "." + q == "" + ("." + u);
    } else {
      JoinConcat(front, Labels(u), '.');
      assert "." + q == ("." + Join(front, '.')) + ("." + u);
    }
  }

  /** A name lies under a dotted suffix exactly when the suffix's labels end its labels. */
  lemma UnderSuffix(q: string, u: string)
    ensures HasSuffix("." + q, "." + u) <==> EndsLabels(q, u)
  {
    if HasSuffix("." + q, "." + u) {
      UnderToEnds(q, u);
    }
    if EndsLabels(q, u) {
      EndsToUnder(q, u);
    }
  }

  /** The labels after the leading dot of a suffix rule. */
  function SuffixLabels(s: string): (labels: seq<string>)
    ensures |labels| >= 1
  {
    Labels(Dotted(s)[1..])
  }

  /** Names under a suffix of two labels or more read the key of its last two labels. */
  lemma {:induction false} SharedKey(q: string, s: string)
    requires HasSuffix("." + q, Dotted(s)) && |SuffixLabels(s)| >= 2
    ensures |Labels(q)| >= 2 && LookupKey(Labels(q)) == LookupKey(SuffixLabels(s))
  {
    var u := Dotted(s)[1..];
    assert Dotted(s) == "." + u;
    UnderSuffix(q, u);
    assert Labels(q)[|Labels(q)| - 2..] == Labels(u)[|Labels(u)| - 2..];
  }

  /** Every suffix rule has two labels or more, and the key read for names under it is stored. */
  ghost predicate SuffixesReachable(r: Rules) {
    forall s :: s in r.suffixes ==> |SuffixLabels(s)| >= 2 && LookupKey(SuffixLabels(s)) in KeysOf(r)
  }

  /** The suffix all of whose names read the key d, if some name's suffix lookup reads d. */
  function SuffixReading(d: string): Option<string> {
    if !HasPrefix(d, ".") then None
    else
      var labels := Labels(d[1..]);
      if |labels| == 1 then Some("." + d)
      else if |labels| == 2 && labels[0] != "" then Some(d)
      else None
  }

  /** A domain rule that a suffix lookup can read is backed by the suffix rule it acts as. */
  ghost predicate DomainsHarmless(r: Rules) {
    forall d :: d in r.domains && SuffixReading(d).Some? ==> SuffixReading(d).value in DottedSet(r.suffixes)
  }

  lemma {:induction false} ReadingOf(a: string, b: string)
    requires '.' !in a && '.' !in b
    ensures SuffixReading(PairKey(a, b)) == Some(PairSuffix(a, b))
  {
    assert PairKey(a, b) == "." + PairKey(a, b)[1..];
    if a == "" {
      SplitPlain(b, '.');
      assert PairKey(a, b)[1..] == b;
      assert a + ['.'] + b == ['.'] + b;
    } else {
      SplitTwo(a, b, '.');
      assert PairKey(a, b)[1..] == a + ['.'] + b;
    }
  }

  lemma {:induction false} LastTwoEnd(q: string)
    requires |Labels(q)| >= 2
    ensures var a, b := Labels(q)[|Labels(q)| - 2], Labels(q)[|Labels(q)| - 1];
            '.' !in a && '.' !in b && HasSuffix("." + q, PairSuffix(a, b)) && HasSuffix("." + q, PairKey(a, b))
  {
    var a, b := Labels(q)[|Labels(q)| - 2], Labels(q)[|Labels(q)| - 1];
    JoinSplit(q, '.');
    SplitTwo(a, b, '.');
    assert Labels(q)[|Labels(q)| - 2..] == [a, b];
    UnderSuffix(q, a + ['.'] + b);
    SplitPlain(b, '.');
    assert Labels(q)[|Labels(q)| - 1..] == [b];
    UnderSuffix(q, b);
  }

  /** The key a name reads is owned by a suffix over that name, and is itself such a suffix. */
  lemma {:induction false} KeyOwner(q: string)
    requires |Labels(q)| >= 2
    ensures var key := LookupKey(Labels(q));
            SuffixReading(key).Some? && HasSuffix("." + q, SuffixReading(key).value) && HasSuffix("." + q, key)
  {
    var a, b := Labels(q)[|Labels(q)| - 2], Labels(q)[|Labels(q)| - 1];
    LastTwoEnd(q);
    LookupKeyShape(Labels(q));
    ReadingOf(a, b);
  }

  lemma {:induction false} ConditionsSuffice(r: Rules, q: string)
    requires SuffixesReachable(r) && DomainsHarmless(r)
    ensures KeyMatch(KeysOf(r), q) <==> Intended(r, q)
  {
    if |Labels(q)| >= 2 && LookupKey(Labels(q)) in KeysOf(r) {
      KeyOwner(q);
      var key := LookupKey(Labels(q));
      var t := if key in DottedSet(r.suffixes) then key else SuffixReading(key).value;
      assert t in DottedSet(r.suffixes);
    }
    if s :| s in r.suffixes && HasSuffix("." + q, Dotted(s)) {
      SharedKey(q, s);
    }
  }

  function MaxLength(strs: seq<string>): (n: nat)
    ensures forall s :: s in strs ==> |s| <= n
  {
    if strs == [] then 0
    else
      var n := MaxLength(strs[1..]);
      if |strs[0]| > n then |strs[0]| else n
  }

  /** A label longer than every stored key. */
  function FreshLabel(r: Rules): (x: string)
    ensures '.' !in x && x != ""
    ensures forall k :: k in KeysOf(r) ==> |k| < |x|
  {
    var n := MaxLength(r.domains) + MaxLength(r.suffixes) + 2;
    seq(n, _ => 'x')
  }

  lemma {:induction false} FreshLabels(x: string, t: string)
    requires '.' !in x && HasPrefix(t, ".")
    ensures Labels(x + t) == [x] + Labels(t[1..])
  {
    assert x + t == x + ['.'] + t[1..];
    SplitConcat(x, t[1..], '.');
    SplitPlain(x, '.');
  }

  /** What a name reads that has one fresh label in front of a dotted suffix. */
  lemma {:induction false} FreshReads(x: string, t: string)
    requires '.' !in x && x != "" && HasPrefix(t, ".")
    ensures |Labels(x + t)| >= 2
    ensures if |Labels(t[1..])| == 1 then |LookupKey(Labels(x + t))| > |x|
            else LookupKey(Labels(x + t)) == LookupKey(Labels(t[1..]))
  {
    FreshLabels(x, t);
    var labels := Labels(t[1..]);
    var qs := [x] + labels;
    if |labels| == 1 {
      LookupKeyShape(qs);
    } else {
      assert qs[|qs| - 2..] == labels[|labels| - 2..];
    }
  }

  lemma {:induction false} ReachableIsNeeded(r: Rules, s: string)
    requires s in r.suffixes
    requires forall q :: KeyMatch(KeysOf(r), q) <==> Intended(r, q)
    ensures |SuffixLabels(s)| >= 2 && LookupKey(SuffixLabels(s)) in KeysOf(r)
  {
    hide LookupKey, Split;
    var x := FreshLabel(r);
    var q := x + Dotted(s);
    assert ("." + q)[|x| + 1..] == Dotted(s);
    assert Intended(r, q);
    assert KeyMatch(KeysOf(r), q);
    assert |q| > |x|;
    FreshReads(x, Dotted(s));
  }

  /** A key that is read at all is the key of two labels. */
  lemma {:induction false} ReadingParts(d: string) returns (a: string, b: string)
    requires SuffixReading(d).Some?
    ensures '.' !in a && '.' !in b && d == PairKey(a, b) && SuffixReading(d).value == PairSuffix(a, b)
  {
    var labels := Labels(d[1..]);
    assert d == "." + d[1..];
    JoinSplit(d[1..], '.');
    if |labels| == 1 {
      a, b := "", labels[0];
      assert "." + d == "." + (a + ['.'] + b);
    } else {
      a, b := labels[0], labels[1];
      assert labels == [a, b];
      JoinTwo(a, b, '.');
    }
  }

  /** The owner of a key has two labels, and its names read that key. */
  lemma {:induction false} OwnerReads(d: string)
    requires SuffixReading(d).Some?
    ensures var t := SuffixReading(d).value;
            HasPrefix(t, ".") && |Labels(t[1..])| == 2 && LookupKey(Labels(t[1..])) == d
  {
    var a, b := ReadingParts(d);
    assert PairSuffix(a, b)[1..] == a + ['.'] + b;
    SplitTwo(a, b, '.');
    LookupKeyShape([a, b]);
  }

  /** A suffix that reaches into x starts with a character of x. */
  lemma StartsInside(x: string, t: string, s: string)
    requires |t| < |s| <= |x| + |t| && HasSuffix("." + (x + t), s)
    ensures s[0] in x
  {
    var k := |x| + |t| - |s|;
    assert s[0] == ("." + (x + t))[k + 1];
    assert ("." + (x + t))[k + 1] == x[k];
  }

  /** A dotted suffix of "." + x + t that is shorter than the dot-free x is a suffix of t. */
  lemma {:induction false} SuffixBeyondLabel(x: string, t: string, s: string)
    requires '.' !in x && |s| < |x| && HasPrefix(s, ".") && HasPrefix(t, ".")
    requires HasSuffix("." + (x + t), s)
    ensures HasSuffix("." + t[1..], s)
  {
    if |t| < |s| {
      StartsInside(x, t, s);
    }
    assert "." + t[1..] == t;
    assert ("." + (x + t))[|x| + 1..] == t;
    assert ("." + (x + t))[|x| + 1 + |t| - |s|..] == t[|t| - |s|..];
  }

  /** A dotted suffix of a two-label suffix that has two labels itself is that suffix. */
  lemma {:induction false} SameLabels(t: string, s: string)
    requires HasPrefix(t, ".") && HasPrefix(s, ".") && HasSuffix("." + t[1..], s)
    requires |Labels(t[1..])| == 2 <= |Labels(s[1..])|
    ensures s == t
  {
    assert s == "." + s[1..] && t == "." + t[1..];
    UnderSuffix(t[1..], s[1..]);
    assert Labels(t[1..]) == Labels(s[1..]);
    JoinSplit(t[1..], '.');
    JoinSplit(s[1..], '.');
  }

  lemma {:induction false} HarmlessIsNeeded(r: Rules, d: string)
    requires d in r.domains && SuffixReading(d).Some?
    requires SuffixesReachable(r)
    requires forall q :: KeyMatch(KeysOf(r), q) <==> Intended(r, q)
    ensures SuffixReading(d).value in DottedSet(r.suffixes)
  {
    hide LookupKey, Labels, SuffixReading;
    var t := SuffixReading(d).value;
    var x := FreshLabel(r);
    var q := x + t;
    OwnerReads(d);
    FreshReads(x, t);
    assert KeyMatch(KeysOf(r), q);
    assert |q| > |x| && q !in KeysOf(r);
    assert q !in r.domains;
    assert Intended(r, q);
    var s :| s in r.suffixes && HasSuffix("." + q, Dotted(s));
    assert Dotted(s) in KeysOf(r);
    SuffixBeyondLabel(x, t, Dotted(s));
    SameLabels(t, Dotted(s));
  }

  /** The exact condition on a rule list under which its index answers every query as the rules
      mean it. */
  lemma {:induction false} MatchExact(r: Rules)
    ensures (forall q :: FastMatch(KeysOf(r), q) <==> Intended(r, q)) <==>
            SuffixesReachable(r) && DomainsHarmless(r)
  {
    forall q
      ensures FastMatch(KeysOf(r), q) <==> KeyMatch(KeysOf(r), q)
    {
      MatchClosedForm(KeysOf(r), q);
    }
    if SuffixesReachable(r) && DomainsHarmless(r) {
      forall q
        ensures KeyMatch(KeysOf(r), q) <==> Intended(r, q)
      {
        ConditionsSuffice(r, q);
      }
    }
    if forall q :: FastMatch(KeysOf(r), q) <==> Intended(r, q) {
      assert forall q :: KeyMatch(KeysOf(r), q) <==> Intended(r, q);
      ConditionsNeeded(r);
    }
  }

  lemma {:induction false} ConditionsNeeded(r: Rules)
    requires forall q :: KeyMatch(KeysOf(r), q) <==> Intended(r, q)
    ensures SuffixesReachable(r) && DomainsHarmless(r)
  {
    forall s | s in r.suffixes
      ensures |SuffixLabels(s)| >= 2 && LookupKey(SuffixLabels(s)) in KeysOf(r)
    {
      ReachableIsNeeded(r, s);
    }
    forall d | d in r.domains && SuffixReading(d).Some?
      ensures SuffixReading(d).value in DottedSet(r.suffixes)
    {
      HarmlessIsNeeded(r, d);
    }
  }

  predicate PlainLabel(a: string) {
    a != "" && '.' !in a
  }

  predicate WellFormedDomain(d: string) {
    !HasPrefix(d, ".")
  }

  /** A suffix rule of the form the documentation shows: a dot and two labels. */
  predicate WellFormedSuffix(s: string) {
    HasPrefix(s, ".") && |Labels(s[1..])| == 2 && PlainLabel(Labels(s[1..])[0]) && PlainLabel(Labels(s[1..])[1])
  }

  predicate WellFormed(r: Rules) {
    (forall d :: d in r.domains ==> WellFormedDomain(d)) && (forall s :: s in r.suffixes ==> WellFormedSuffix(s))
  }

  lemma {:induction false} WellFormedSuffixKey(s: string)
    requires WellFormedSuffix(s)
    ensures SuffixKey(s) == s && LookupKey(SuffixLabels(s)) == s
  {
    assert s == "." + s[1..];
    var labels := Labels(s[1..]);
    assert labels == [labels[0], labels[1]];
    JoinSplit(s[1..], '.');
    JoinTwo(labels[0], labels[1], '.');
    LookupKeyShape(labels);
    OffsetKey(labels, 0);
    assert labels[0..] == labels;
  }

  /** On rules of the documented form the index answers every query as the rules mean it. */
  lemma {:induction false} WellFormedMatches(r: Rules, q: string)
    requires WellFormed(r)
    ensures FastMatch(KeysOf(r), q) <==> Intended(r, q)
  {
    forall s | s in r.suffixes
      ensures |SuffixLabels(s)| >= 2 && LookupKey(SuffixLabels(s)) in KeysOf(r)
    {
      WellFormedSuffixKey(s);
      assert Dotted(s) == s;
    }
    ConditionsSuffice(r, q);
    MatchClosedForm(KeysOf(r), q);
  }

  /** A suffix rule of three or more plain labels, alone in its list, misses the very name it
      spells. The shipped configuration has such rules (".play.google.com"). */
  lemma {:induction false} LongSuffixMissed(labels: seq<string>)
    requires |labels| >= 3 && forall j :: 0 <= j < |labels| ==> PlainLabel(labels[j])
    ensures var q := Join(labels, '.');
            var r := Rules([], ["." + q]);
            Intended(r, q) && !FastMatch(KeysOf(r), q)
  {
    var q := Join(labels, '.');
    var s := "." + q;
    var r := Rules([], [s]);
    assert s in r.suffixes && HasSuffix(s, Dotted(s));
    SplitJoin(labels, '.');
    MatchClosedForm(KeysOf(r), q);
    JoinSplit(q, '.');
    FirstOffset(Labels(q));
    LongSuffixNeverHit(labels, "." + Join(Labels(q)[0..], '.'));
    assert forall t :: t in r.suffixes ==> t == s;
    assert forall k :: k in KeysOf(r) ==> k == s;
    assert |q| != |s|;
  }

  /** A suffix rule, written with or without its dot, covers the name it spells and every name that ends
      in a dot and that. */
  ghost predicate Covers(s: string, q: string) {
    exists u :: EndsIn(q, u) && (s == "." + u || (s == u && !HasPrefix(u, ".")))
  }

  lemma {:induction false} CoversExact(s: string, q: string)
    ensures HasSuffix("." + q, Dotted(s)) <==> Covers(s, q)
  {
    var u := Dotted(s)[1..];
    assert Dotted(s) == "." + u;
    EndsInExact(q, u);
    if Covers(s, q) {
      var v :| EndsIn(q, v) && (s == "." + v || (s == v && !HasPrefix(v, ".")));
      assert s == "." + v ==> s[0] == '.' && s[1..] == v;
      assert u == v;
    }
  }

  /** What rules mean, in terms of the text of rule and name. */
  lemma {:induction false} IntendedText(r: Rules, q: string)
    ensures Intended(r, q) <==> q in r.domains || exists s :: s in r.suffixes && Covers(s, q)
  {
    hide Covers, HasSuffix, Dotted;
    forall s
      ensures HasSuffix("." + q, Dotted(s)) <==> Covers(s, q)
    {
      CoversExact(s, q);
    }
  }

  /** The name is u, or some labels, a dot and u. */
  ghost predicate EndsIn(q: string, u: string) {
    q == u || exists front :: q == front + "." + u
  }

  lemma EndsInBehind(q: string, u: string, rest: string)
    requires "." + q == rest + ("." + u)
    ensures EndsIn(q, u)
  {
    assert q == ("." + q)[1..] == (rest + ("." + u))[1..];
    if rest == "" {
      assert (rest + ("." + u))[1..] == u;
    } else {
      assert (rest + ("." + u))[1..] == rest[1..] + "." + u;
    }
  }

  lemma EndsInExact(q: string, u: string)
    ensures HasSuffix("." + q, "." + u) <==> EndsIn(q, u)
  {
    hide HasSuffix;
    PrefixExact("." + q, "." + u);
    if rest :| "." + q == rest + ("." + u) {
      EndsInBehind(q, u, rest);
    }
    if q == u {
      assert "." + q == "" + ("." + u);
    }
    if front :| q == front + "." + u {
      assert "." + q == ("." + front) + ("." + u);
    }
  }

  lemma DottedPair(a: string, b: string)
    requires '.' !in a && '.' !in b
    ensures Dotted(a + ['.'] + b) == if a == "" then "." + b else "." + a + "." + b
  {
    var tail := a + ['.'] + b;
    if a == "" {
      assert tail == "." + b;
    } else {
      assert tail[0] == a[0];
      assert "." + a + "." + b == "." + tail;
    }
  }

  lemma {:induction false} LongKeyText(front: string, a: string, b: string)
    requires '.' !in a && '.' !in b
    ensures SuffixKey(front + ['.'] + (a + ['.'] + b)) == Dotted(a + ['.'] + b)
  {
    hide Split, Dotted, Join;
    var tail := a + ['.'] + b;
    SplitTwo(a, b, '.');
    SplitConcat(front, tail, '.');
    var parts := Labels(front + ['.'] + tail);
    assert parts == Split(front, '.') + [a, b];
    assert parts[|parts| - 2..] == [a, b];
    JoinTwo(a, b, '.');
  }

  lemma ShortKeyText(a: string, b: string)
    requires '.' !in a && '.' !in b
    ensures SuffixKey(a + ['.'] + b) == Dotted(a + ['.'] + b)
    ensures SuffixKey(b) == Dotted(b)
  {
    hide Split, Dotted, Join;
    SplitTwo(a, b, '.');
    SplitPlain(b, '.');
  }

  /** The key of a suffix lookup, in text. */
  lemma {:induction false} SuffixKeyText(front: string, a: string, b: string)
    requires '.' !in a && '.' !in b
    ensures SuffixKey(front + "." + a + "." + b) == if a == "" then "." + b else "." + a + "." + b
    ensures SuffixKey(a + "." + b) == if a == "" then "." + b else "." + a + "." + b
    ensures SuffixKey(b) == "." + b
  {
    hide SuffixKey, Dotted;
    assert front + "." + a + "." + b == front + ['.'] + (a + ['.'] + b);
    LongKeyText(front, a, b);
    ShortKeyText(a, b);
    DottedPair(a, b);
    DottedPlain(b);
  }

  lemma DottedPlain(b: string)
    requires '.' !in b
    ensures Dotted(b) == "." + b
  {
    assert b != "" ==> b[0] in b;
  }

  /** The documented form of a suffix rule, in text. */
  lemma {:induction false} WellFormedSuffixText(s: string)
    ensures WellFormedSuffix(s) <==> exists a, b :: PlainLabel(a) && PlainLabel(b) && s == "." + a + "." + b
  {
    if WellFormedSuffix(s) {
      var labels := Labels(s[1..]);
      JoinSplit(s[1..], '.');
      JoinTwo(labels[0], labels[1], '.');
      assert labels == [labels[0], labels[1]];
      assert s == "." + labels[0] + "." + labels[1];
    }
    if a, b :| PlainLabel(a) && PlainLabel(b) && s == "." + a + "." + b {
      assert s[1..] == a + ['.'] + b;
      SplitTwo(a, b, '.');
    }
  }

  /** A lone suffix rule of two labels matches the name it spells and every name that ends in a dot and
      that, and no other. */
  lemma {:induction false} TwoLabelsMatch(a: string, b: string, q: string)
    requires PlainLabel(a) && PlainLabel(b)
    ensures FastMatch({"." + a + "." + b}, q) <==> EndsIn(q, a + "." + b)
  {
    var s := "." + a + "." + b;
    var r := Rules([], [s]);
    hide FastMatch, EndsIn, HasSuffix;
    WellFormedSuffixText(s);
    assert s in r.suffixes && Dotted(s) == s;
    assert KeysOf(r) == {s};
    WellFormedMatches(r, q);
    EndsInExact(q, a + "." + b);
    assert s == "." + (a + "." + b);
  }
}
