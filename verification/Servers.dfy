/** The order in which upstream servers are tried. */
module Servers {
  import opened Text

  /** The scheme a URL parser finds in a server, "" when it does not parse. */
  type UrlScheme = string -> string

  function Scheme(parse: UrlScheme, server: string): string {
    if HasPrefix(server, "https://") then "https"
    else if HasPrefix(server, "tls://") then "tls"
    else if HasPrefix(server, "tcp://") then "tcp"
    else if HasPrefix(server, "udp://") then "udp"
    else if !Mentions(server, "://") then "udp"
    else parse(server)
  }

  predicate Mentions(s: string, t: string) {
    exists i {:trigger s[i..]} :: 0 <= i <= |s| && HasPrefix(s[i..], t)
  }

  /** To mention a text is to have it somewhere inside. */
  lemma MentionsExact(s: string, t: string)
    ensures Mentions(s, t) <==> exists a, b :: s == a + t + b
  {
    if i :| 0 <= i <= |s| && HasPrefix(s[i..], t) {
      assert s == s[..i] + t + s[i + |t|..];
    }
    if a, b :| s == a + t + b {
      assert HasPrefix(s[|a|..], t);
    }
  }

  function Rank(parse: UrlScheme, server: string): nat {
    match Scheme(parse, server)
    case "https" => 0
    case "doh" => 0
    case "tls" => 1
    case "dot" => 1
    case "tcp" => 2
    case "udp" => 3
    case _ => 99
  }

  predicate KnownScheme(server: string) {
    HasPrefix(server, "https://") || HasPrefix(server, "tls://") || HasPrefix(server, "tcp://") ||
    HasPrefix(server, "udp://")
  }

  /** Encrypted servers come first: HTTPS, then TLS, then TCP, then UDP and servers without scheme. Any
      other scheme is left to the URL parser, which may find the same ones, or their DNS names. */
  lemma {:induction false} RankOfSchemes(parse: UrlScheme, server: string)
    ensures HasPrefix(server, "https://") ==> Rank(parse, server) == 0
    ensures HasPrefix(server, "tls://") ==> Rank(parse, server) == 1
    ensures HasPrefix(server, "tcp://") ==> Rank(parse, server) == 2
    ensures HasPrefix(server, "udp://") || !Mentions(server, "://") ==> Rank(parse, server) == 3
    ensures !KnownScheme(server) && Mentions(server, "://") ==>
              (Rank(parse, server) == 0 <==> parse(server) in {"https", "doh"}) &&
              (Rank(parse, server) == 1 <==> parse(server) in {"tls", "dot"}) &&
              (Rank(parse, server) == 2 <==> parse(server) == "tcp") &&
              (Rank(parse, server) == 3 <==> parse(server) == "udp")
    ensures Rank(parse, server) in {0, 1, 2, 3, 99}
  {
    MentionedByPrefix(server, "https", "://");
    MentionedByPrefix(server, "tls", "://");
    MentionedByPrefix(server, "tcp", "://");
    MentionedByPrefix(server, "udp", "://");
    assert "https" + "://" == "https://" && "tls" + "://" == "tls://" && "tcp" + "://" == "tcp://" && "udp" + "://" ==
        "udp://";
    if HasPrefix(server, "tls://") {
      assert server[0] == 't';
    }
    if HasPrefix(server, "tcp://") {
      assert server[0] == 't' && server[1] == 'c';
    }
    if HasPrefix(server, "udp://") {
      assert server[0] == 'u';
    }
  }

  lemma MentionedByPrefix(s: string, p: string, t: string)
    ensures HasPrefix(s, p + t) ==> Mentions(s, t)
  {
    if HasPrefix(s, p + t) {
      assert s[..|p + t|][|p|..] == t;
      assert s[|p|..][..|t|] == t;
    }
  }

  function Exchanged(parse: UrlScheme, s: seq<string>, i: nat, j: nat): seq<string>
    requires i < j < |s|
  {
    if Rank(parse, s[i]) > Rank(parse, s[j]) then s[i := s[j]][j := s[i]] else s
  }

  /** The inner loop from j on: position i takes over whatever ranks before it. */
  function Pass(parse: UrlScheme, s: seq<string>, i: nat, j: nat): (r: seq<string>)
    requires i < j <= |s|
    ensures |r| == |s|
    decreases |s| - j
  {
    if j == |s| then s
    else Pass(parse, Exchanged(parse, s, i, j), i, j + 1)
  }

  function Passes(parse: UrlScheme, s: seq<string>, i: nat): (r: seq<string>)
    requires i <= |s|
    ensures |r| == |s|
    decreases |s| - i
  {
    if i == |s| then s else Passes(parse, Pass(parse, s, i, i + 1), i + 1)
  }

  function ExchangeSort(parse: UrlScheme, servers: seq<string>): (r: seq<string>)
    ensures |r| == |servers|
  {
    Passes(parse, servers, 0)
  }

  lemma PassStep(parse: UrlScheme, s: seq<string>, i: nat, j: nat)
    requires i < j <= |s|
    ensures Pass(parse, s, i, j) == if j == |s| then s else Pass(parse, Exchanged(parse, s, i, j), i, j + 1)
  {
    hide Rank;
  }

  lemma PassesStep(parse: UrlScheme, s: seq<string>, i: nat)
    requires i <= |s|
    ensures Passes(parse, s, i) == if i == |s| then s else Passes(parse, Pass(parse, s, i, i + 1), i + 1)
  {
    hide Rank;
  }

  method SortServers(parse: UrlScheme, servers: seq<string>) returns (sorted: array<string>)
    ensures fresh(sorted) && sorted[..] == ExchangeSort(parse, servers)
  {
    hide Rank, Pass, Passes;
    sorted := new string[|servers|](i requires 0 <= i < |servers| => servers[i]);
    assert sorted[..] == servers;
    var i := 0;
    while i < sorted.Length
      invariant 0 <= i <= sorted.Length == |servers|
      invariant Passes(parse, sorted[..], i) == ExchangeSort(parse, servers)
    {
      ghost var before := sorted[..];
      var j := i + 1;
      while j < sorted.Length
        invariant i < j <= sorted.Length == |servers|
        invariant Pass(parse, sorted[..], i, j) == Pass(parse, before, i, i + 1)
      {
        ghost var now := sorted[..];
        if Rank(parse, sorted[i]) > Rank(parse, sorted[j]) {
          sorted[i], sorted[j] := sorted[j], sorted[i];
        }
        assert sorted[..] == Exchanged(parse, now, i, j);
        PassStep(parse, now, i, j);
        j := j + 1;
      }
      PassStep(parse, sorted[..], i, j);
      PassesStep(parse, before, i);
      i := i + 1;
    }
    PassesStep(parse, sorted[..], i);
  }

  /** From position i on, no server ranks before the bound. */
  predicate BoundedFrom(parse: UrlScheme, s: seq<string>, i: nat, bound: nat) {
    forall k :: i <= k < |s| ==> bound <= Rank(parse, s[k])
  }

  lemma {:induction false} PassKeeps(parse: UrlScheme, s: seq<string>, i: nat, j: nat)
    requires i < j <= |s|
    ensures multiset(Pass(parse, s, i, j)) == multiset(s) && Pass(parse, s, i, j)[..i] == s[..i]
    decreases |s| - j
  {
    hide Rank;
    if j < |s| {
      SwapKeeps(s, i, j);
      assert Exchanged(parse, s, i, j)[..i] == s[..i];
      PassKeeps(parse, Exchanged(parse, s, i, j), i, j + 1);
    }
  }

  lemma {:induction false} PassBounded(parse: UrlScheme, s: seq<string>, i: nat, j: nat, bound: nat)
    requires i < j <= |s| && BoundedFrom(parse, s, i, bound)
    ensures BoundedFrom(parse, Pass(parse, s, i, j), i, bound)
    decreases |s| - j
  {
    hide Rank;
    if j < |s| {
      PassBounded(parse, Exchanged(parse, s, i, j), i, j + 1, bound);
    }
  }

  lemma {:induction false} PassFirst(parse: UrlScheme, s: seq<string>, i: nat, j: nat)
    requires i < j <= |s|
    requires forall k :: i <= k < j ==> Rank(parse, s[i]) <= Rank(parse, s[k])
    ensures var r := Pass(parse, s, i, j); BoundedFrom(parse, r, i, Rank(parse, r[i]))
    decreases |s| - j
  {
    hide Rank;
    if j < |s| {
      PassFirst(parse, Exchanged(parse, s, i, j), i, j + 1);
    }
  }

  lemma SwapKeeps<T>(s: seq<T>, i: nat, j: nat)
    requires i < j < |s|
    ensures multiset(s[i := s[j]][j := s[i]]) == multiset(s)
  {
  }

  ghost predicate RankSorted(parse: UrlScheme, s: seq<string>, upTo: nat) {
    forall a, b :: 0 <= a < b < |s| && a < upTo ==> Rank(parse, s[a]) <= Rank(parse, s[b])
  }

  lemma {:induction false} PassesSort(parse: UrlScheme, s: seq<string>, i: nat)
    requires i <= |s| && RankSorted(parse, s, i)
    ensures var r := Passes(parse, s, i);
            multiset(r) == multiset(s) && RankSorted(parse, r, |r|)
    decreases |s| - i
  {
    hide Rank;
    if i < |s| {
      var t := Pass(parse, s, i, i + 1);
      PassKeeps(parse, s, i, i + 1);
      PassFirst(parse, s, i, i + 1);
      forall a, b | 0 <= a < b < |t| && a < i + 1
        ensures Rank(parse, t[a]) <= Rank(parse, t[b])
      {
        if a < i {
          assert t[a] == t[..i][a] == s[a];
          if b < i {
            assert t[b] == t[..i][b] == s[b];
          } else {
            PassBounded(parse, s, i, i + 1, Rank(parse, s[a]));
          }
        }
      }
      PassesSort(parse, t, i + 1);
    }
  }

  /** The servers tried are those configured, in an order that never decreases in rank. */
  lemma {:induction false} SortFacts(parse: UrlScheme, servers: seq<string>)
    ensures var r := ExchangeSort(parse, servers);
            multiset(r) == multiset(servers) && RankSorted(parse, r, |r|)
  {
    PassesSort(parse, servers, 0);
  }

  /** Servers of equal rank can change places: the sort is not stable. */
  lemma {:induction false} NotStable(parse: UrlScheme, a: string, b: string, c: string)
    requires Rank(parse, a) == Rank(parse, b) > Rank(parse, c)
    ensures ExchangeSort(parse, [a, b, c]) == [c, b, a]
  {
    hide Rank;
    var s0 := [a, b, c];
    var s1 := [c, b, a];
    assert s0[0 := s0[2]][2 := s0[0]] == s1;
    assert Pass(parse, s0, 0, 1) == Pass(parse, s0, 0, 2) == Pass(parse, s1, 0, 3) == s1;
    assert Pass(parse, s1, 1, 2) == Pass(parse, s1, 1, 3) == s1;
    assert Passes(parse, s1, 3) == s1 && Pass(parse, s1, 2, 3) == s1;
    assert Passes(parse, s1, 2) == s1;
    assert Passes(parse, s1, 1) == s1;
  }

  // The sort by positions.

  /** Server b is the first of the best rank from position i up to n. */
  predicate FirstBest(parse: UrlScheme, s: seq<string>, i: nat, n: nat, b: nat) {
    i <= b < n <= |s| &&
    (forall k :: i <= k < n ==> Rank(parse, s[b]) <= Rank(parse, s[k])) &&
    forall k :: i <= k < b ==> Rank(parse, s[b]) < Rank(parse, s[k])
  }

  /** What stands at position m after a pass for position i: the best server before it, if the one there
      ranks strictly before that, and otherwise the one there. */
  ghost predicate Placed(parse: UrlScheme, s: seq<string>, r: seq<string>, i: nat, m: nat) {
    i < m < |s| == |r| &&
    exists b: nat :: FirstBest(parse, s, i, m, b) &&
      r[m] == if Rank(parse, s[m]) < Rank(parse, s[b]) then s[b] else s[m]
  }

  /** What a pass for position i has made of s when it has come to position j. */
  ghost predicate Passed(parse: UrlScheme, s: seq<string>, r: seq<string>, i: nat, j: nat) {
    i < j <= |s| == |r| &&
    (exists b: nat :: FirstBest(parse, s, i, j, b) && r[i] == s[b]) &&
    (forall m: nat :: i < m < j ==> Placed(parse, s, r, i, m)) &&
    forall m :: 0 <= m < i || j <= m < |s| ==> r[m] == s[m]
  }

  lemma {:induction false} PassExact(parse: UrlScheme, s: seq<string>, now: seq<string>, i: nat, j: nat)
    requires Passed(parse, s, now, i, j)
    ensures Passed(parse, s, Pass(parse, now, i, j), i, |s|)
    decreases |s| - j
  {
    hide Rank, Passed;
    PassLength(parse, s, now, i, j);
    if j < |s| {
      ExchangePasses(parse, s, now, i, j);
      PassExact(parse, s, Exchanged(parse, now, i, j), i, j + 1);
    }
  }

  lemma PassLength(parse: UrlScheme, s: seq<string>, now: seq<string>, i: nat, j: nat)
    requires Passed(parse, s, now, i, j)
    ensures i < j <= |s| == |now|
  {
    hide Rank, FirstBest, Placed;
  }

  lemma ExchangePasses(parse: UrlScheme, s: seq<string>, now: seq<string>, i: nat, j: nat)
    requires Passed(parse, s, now, i, j) && j < |s| == |now|
    ensures Passed(parse, s, Exchanged(parse, now, i, j), i, j + 1)
  {
    hide Rank, Placed;
    var next := Exchanged(parse, now, i, j);
    var b: nat :| FirstBest(parse, s, i, j, b) && now[i] == s[b];
    BestSoFar(parse, s, i, j, b);
    assert next[i] == s[if Rank(parse, s[j]) < Rank(parse, s[b]) then j else b];
    PlacedNow(parse, s, next, i, j, b);
    forall m: nat | i < m < j
      ensures Placed(parse, s, next, i, m)
    {
      PlacedStays(parse, s, now, next, i, m);
    }
  }

  lemma BestSoFar(parse: UrlScheme, s: seq<string>, i: nat, j: nat, b: nat)
    requires FirstBest(parse, s, i, j, b) && j < |s|
    ensures FirstBest(parse, s, i, j + 1, if Rank(parse, s[j]) < Rank(parse, s[b]) then j else b)
    ensures b < |s|
  {
    hide Rank;
  }

  lemma PlacedNow(parse: UrlScheme, s: seq<string>, r: seq<string>, i: nat, m: nat, b: nat)
    requires i < m < |s| == |r| && FirstBest(parse, s, i, m, b)
    requires b < |s| && r[m] == if Rank(parse, s[m]) < Rank(parse, s[b]) then s[b] else s[m]
    ensures Placed(parse, s, r, i, m)
  {
    hide Rank, FirstBest;
  }

  lemma PlacedStays(parse: UrlScheme, s: seq<string>, r: seq<string>, r': seq<string>, i: nat, m: nat)
    requires Placed(parse, s, r, i, m) && |r'| == |r| && r'[m] == r[m]
    ensures Placed(parse, s, r', i, m)
  {
    hide Rank;
  }

  /** The states between the passes, from the configured servers to the sorted ones. */
  ghost predicate SortTrace(parse: UrlScheme, s: seq<string>, r: seq<string>, from: nat, trace: seq<seq<string>>) {
    from <= |s| && |trace| == |s| - from + 1 && trace[0] == s && trace[|trace| - 1] == r &&
    (forall k :: 0 <= k < |trace| ==> |trace[k]| == |s|) &&
    forall k :: 0 <= k < |s| - from ==> Passed(parse, trace[k], trace[k + 1], from + k, |s|)
  }

  lemma {:induction false} PassesTrace(parse: UrlScheme, s: seq<string>, i: nat) returns (trace: seq<seq<string>>)
    requires i <= |s|
    ensures SortTrace(parse, s, Passes(parse, s, i), i, trace)
    decreases |s| - i
  {
    hide Rank, Passed, Pass;
    if i == |s| {
      trace := [s];
    } else {
      var t := Pass(parse, s, i, i + 1);
      StartPass(parse, s, i);
      PassExact(parse, s, s, i, i + 1);
      var rest := PassesTrace(parse, t, i + 1);
      trace := [s] + rest;
      forall k | 0 <= k < |s| - i
        ensures Passed(parse, trace[k], trace[k + 1], i + k, |s|)
      {
        if k > 0 {
          assert trace[k] == rest[k - 1] && trace[k + 1] == rest[k];
          assert Passed(parse, rest[k - 1], rest[k], i + 1 + (k - 1), |t|);
        } else {
          assert trace[0] == s && trace[1] == rest[0] == t;
        }
      }
    }
  }

  lemma StartPass(parse: UrlScheme, s: seq<string>, i: nat)
    requires i < |s|
    ensures Passed(parse, s, s, i, i + 1)
  {
    hide Rank;
    assert FirstBest(parse, s, i, i + 1, i);
  }

  /** The exact result of the sort, equal ranks included: for each position in turn, the first best
      server from there on comes to it, and each server that ranked strictly before all from there up to
      itself gives its place to the first best of those. */
  lemma {:induction false} SortExact(parse: UrlScheme, servers: seq<string>)
    ensures exists trace :: SortTrace(parse, servers, ExchangeSort(parse, servers), 0, trace)
  {
    var trace := PassesTrace(parse, servers, 0);
    assert SortTrace(parse, servers, ExchangeSort(parse, servers), 0, trace);
  }

  /** Servers that are in rank order already stay in the order configured. */
  lemma {:induction false} SortedStays(parse: UrlScheme, s: seq<string>, i: nat)
    requires i <= |s| && RankSorted(parse, s, |s|)
    ensures Passes(parse, s, i) == s
    decreases |s| - i
  {
    hide Rank, Passes, Pass;
    PassesStep(parse, s, i);
    if i < |s| {
      PassStays(parse, s, i, i + 1);
      SortedStays(parse, s, i + 1);
    }
  }

  lemma {:induction false} PassStays(parse: UrlScheme, s: seq<string>, i: nat, j: nat)
    requires i < j <= |s| && RankSorted(parse, s, |s|)
    ensures Pass(parse, s, i, j) == s
    decreases |s| - j
  {
    hide Rank;
    if j < |s| {
      PassStays(parse, s, i, j + 1);
    }
  }

  /** Servers in rank order stay as they are, and in any case the first one tried is the first configured
      one of the best rank. */
  lemma {:induction false} SortOrder(parse: UrlScheme, servers: seq<string>)
    ensures RankSorted(parse, servers, |servers|) ==> ExchangeSort(parse, servers) == servers
    ensures forall b: nat :: FirstBest(parse, servers, 0, |servers|, b) ==>
              ExchangeSort(parse, servers)[0] == servers[b]
  {
    hide Rank, Passes, Pass;
    if RankSorted(parse, servers, |servers|) {
      SortedStays(parse, servers, 0);
    }
    if servers != [] {
      PassesStep(parse, servers, 0);
      StartPass(parse, servers, 0);
      PassExact(parse, servers, servers, 0, 1);
      PassesKeepFront(parse, Pass(parse, servers, 0, 1), 1);
    }
  }

  lemma {:induction false} PassesKeepFront(parse: UrlScheme, s: seq<string>, i: nat)
    requires i <= |s|
    ensures Passes(parse, s, i)[..i] == s[..i]
    decreases |s| - i
  {
    hide Rank, Passes, Pass;
    PassesStep(parse, s, i);
    if i < |s| {
      PassKeeps(parse, s, i, i + 1);
      var t := Pass(parse, s, i, i + 1);
      PassesKeepFront(parse, t, i + 1);
      assert Passes(parse, t, i + 1)[..i + 1][..i] == t[..i + 1][..i];
    }
  }
}
