/** The string operations of the program's runtime that its logic depends on:
    splitting and joining on a separator, prefixes and suffixes, trimming. */
module Text {

  lemma AppendAssoc<T>(a: seq<T>, b: seq<T>, c: seq<T>)
    ensures a + (b + c) == a + b + c
  {
  }

  predicate HasPrefix(s: string, prefix: string) {
    |prefix| <= |s| && s[..|prefix|] == prefix
  }

  predicate HasSuffix(s: string, suffix: string) {
    |suffix| <= |s| && s[|s| - |suffix|..] == suffix
  }

  /** A prefix is what the string begins with, a suffix what it ends with. */
  lemma PrefixExact(s: string, t: string)
    ensures HasPrefix(s, t) <==> exists rest :: s == t + rest
    ensures HasSuffix(s, t) <==> exists rest :: s == rest + t
  {
    if HasPrefix(s, t) {
      assert s == t + s[|t|..];
    }
    if HasSuffix(s, t) {
      assert s == s[..|s| - |t|] + t;
    }
  }

  /** Removes one trailing dot, if there is one. */
  function TrimDot(s: string): (r: string)
    ensures s == r + "." || (s == r && (s == "" || s[|s| - 1] != '.'))
  {
    if HasSuffix(s, ".") then s[..|s| - 1] else s
  }

  /** Of a name with a dot at its end the name is left; one without is left as it is. */
  lemma TrimDotExact(q: string)
    ensures TrimDot(q + ".") == q
    ensures q == "" || q[|q| - 1] != '.' ==> TrimDot(q) == q
  {
    assert (q + ".")[|q|] == '.';
  }

  /** The pieces between the separators; never empty, since "" is one empty piece. */
  function Split(s: string, sep: char): (parts: seq<string>)
    ensures |parts| >= 1
  {
    if s == "" then
      [""]
    else
      var rest := Split(s[1..], sep);
      if s[0] == sep then [""] + rest else [[s[0]] + rest[0]] + rest[1..]
  }

  function Join(parts: seq<string>, sep: char): string {
    if |parts| == 0 then ""
    else if |parts| == 1 then parts[0]
    else parts[0] + [sep] + Join(parts[1..], sep)
  }

  /** Joining undoes splitting, and no piece contains the separator. */
  lemma {:induction false} JoinSplit(s: string, sep: char)
    ensures Join(Split(s, sep), sep) == s
    ensures forall i :: 0 <= i < |Split(s, sep)| ==> sep !in Split(s, sep)[i]
  {
    if s != "" {
      JoinSplit(s[1..], sep);
      var rest := Split(s[1..], sep);
      var parts := Split(s, sep);
      if s[0] == sep {
        assert parts[1..] == rest;
        assert [sep] + s[1..] == s;
      } else {
        assert parts[1..] == rest[1..];
        assert [s[0]] + s[1..] == s;
      }
    }
  }

  /** A piece without separators splits to itself. */
  lemma {:induction false} SplitPlain(s: string, sep: char)
    requires sep !in s
    ensures Split(s, sep) == [s]
  {
    if s != "" {
      SplitPlain(s[1..], sep);
      assert Split(s[1..], sep) == [s[1..]];
      assert s == [s[0]] + s[1..];
    }
  }

  /** Splitting distributes over a separator in the middle. */
  lemma {:induction false} SplitConcat(a: string, b: string, sep: char)
    ensures Split(a + [sep] + b, sep) == Split(a, sep) + Split(b, sep)
  {
    var s := a + [sep] + b;
    if a == "" {
      assert s[0] == sep && s[1..] == b;
    } else {
      assert s[0] == a[0] && s[1..] == a[1..] + [sep] + b;
      SplitConcat(a[1..], b, sep);
      PrependConcat(a[0], Split(a[1..], sep), Split(b, sep));
    }
  }

  lemma PrependConcat(c: char, ra: seq<string>, rb: seq<string>)
    requires ra != []
    ensures [""] + (ra + rb) == ([""] + ra) + rb
    ensures [[c] + (ra + rb)[0]] + (ra + rb)[1..] == ([[c] + ra[0]] + ra[1..]) + rb
  {
    assert (ra + rb)[1..] == ra[1..] + rb;
  }

  /** Splitting undoes joining when no piece contains the separator. */
  lemma {:induction false} SplitJoin(parts: seq<string>, sep: char)
    requires |parts| >= 1
    requires forall i :: 0 <= i < |parts| ==> sep !in parts[i]
    ensures Split(Join(parts, sep), sep) == parts
  {
    SplitPlain(parts[0], sep);
    if |parts| > 1 {
      SplitJoin(parts[1..], sep);
      SplitConcat(parts[0], Join(parts[1..], sep), sep);
      assert parts == [parts[0]] + parts[1..];
    } else {
      assert parts == [parts[0]];
    }
  }

  lemma {:induction false} JoinConcat(a: seq<string>, b: seq<string>, sep: char)
    requires a != [] && b != []
    ensures Join(a + b, sep) == Join(a, sep) + [sep] + Join(b, sep)
  {
    if |a| == 1 {
      assert (a + b)[1..] == b;
    } else {
      assert (a + b)[1..] == a[1..] + b;
      JoinConcat(a[1..], b, sep);
    }
  }

  lemma JoinTwo(a: string, b: string, sep: char)
    ensures Join([a, b], sep) == a + [sep] + b
  {
    assert [a, b][1..] == [b];
  }

  lemma SplitTwo(a: string, b: string, sep: char)
    requires sep !in a && sep !in b
    ensures Split(a + [sep] + b, sep) == [a, b]
  {
    SplitConcat(a, b, sep);
    SplitPlain(a, sep);
    SplitPlain(b, sep);
  }

  /** A leading separator puts an empty piece in front. */
  lemma SplitLeading(s: string, sep: char)
    ensures Split([sep] + s, sep) == [""] + Split(s, sep)
  {
    assert ([sep] + s)[1..] == s;
  }

  /** A piece between separators, or between one and an end of the string. */
  ghost predicate PieceAt(s: string, pre: string, piece: string, post: string, sep: char) {
    s == pre + piece + post && sep !in piece &&
    (pre == "" || pre[|pre| - 1] == sep) && (post == "" || post[0] == sep)
  }

  ghost predicate PieceOf(s: string, piece: string, sep: char) {
    exists pre, post :: PieceAt(s, pre, piece, post, sep)
  }

  /** Splitting gives exactly these pieces. */
  lemma {:induction false} SplitExact(s: string, piece: string, sep: char)
    ensures piece in Split(s, sep) <==> PieceOf(s, piece, sep)
  {
    if piece in Split(s, sep) {
      var k :| 0 <= k < |Split(s, sep)| && Split(s, sep)[k] == piece;
      SplitIsPiece(s, k, sep);
    }
    if pre, post :| PieceAt(s, pre, piece, post, sep) {
      PieceIsSplit(s, pre, piece, post, sep);
    }
  }

  lemma {:induction false} SplitIsPiece(s: string, k: nat, sep: char)
    requires k < |Split(s, sep)|
    ensures PieceOf(s, Split(s, sep)[k], sep)
  {
    hide Split, Join;
    var parts := Split(s, sep);
    JoinSplit(s, sep);
    assert parts == parts[..k] + ([parts[k]] + parts[k + 1..]);
    var post := JoinFirst(parts[k], parts[k + 1..], sep);
    var pre := JoinBehind(parts[..k], [parts[k]] + parts[k + 1..], sep);
    AppendAssoc(pre, parts[k], post);
    assert PieceAt(s, pre, parts[k], post, sep);
  }

  lemma JoinFirst(piece: string, back: seq<string>, sep: char) returns (post: string)
    ensures Join([piece] + back, sep) == piece + post && (post == "" || post[0] == sep)
  {
    var all := [piece] + back;
    post := if back == [] then "" else [sep] + Join(back, sep);
    assert all[1..] == back;
    if back == [] {
      assert all == [piece];
    }
  }

  lemma JoinBehind(front: seq<string>, back: seq<string>, sep: char) returns (pre: string)
    requires back != []
    ensures Join(front + back, sep) == pre + Join(back, sep) && (pre == "" || pre[|pre| - 1] == sep)
  {
    if front == [] {
      pre := "";
      assert front + back == back;
    } else {
      JoinConcat(front, back, sep);
      pre := Join(front, sep) + [sep];
    }
  }

  lemma {:induction false} PieceIsSplit(s: string, pre: string, piece: string, post: string, sep: char)
    requires PieceAt(s, pre, piece, post, sep)
    ensures piece in Split(s, sep)
  {
    hide Split;
    SplitPlain(piece, sep);
    var tail := piece + post;
    if post == "" {
      assert tail == piece;
    } else {
      assert tail == piece + [sep] + post[1..];
      SplitConcat(piece, post[1..], sep);
    }
    assert piece in Split(tail, sep);
    if pre == "" {
      assert s == tail;
    } else {
      assert s == pre[..|pre| - 1] + [sep] + tail;
      SplitConcat(pre[..|pre| - 1], tail, sep);
    }
  }

  /** White space as `unicode.IsSpace` defines it. */
  predicate IsSpace(c: char) {
    '\t' <= c <= '\r' || c == ' ' || c == '\U{0085}' || c == '\U{00A0}' || c == '\U{1680}' ||
    '\U{2000}' <= c <= '\U{200A}' || c == '\U{2028}' || c == '\U{2029}' || c == '\U{202F}' ||
    c == '\U{205F}' || c == '\U{3000}'
  }

  /** Among the ASCII characters these are the blank and those from the tab to the carriage return. */
  lemma SpaceAscii(c: char)
    requires c <= '\U{007F}'
    ensures IsSpace(c) <==> c in {' ', '\t', '\n', '\U{000B}', '\U{000C}', '\r'}
  {
  }

  function TrimLeft(s: string): string {
    if s != "" && IsSpace(s[0]) then TrimLeft(s[1..]) else s
  }

  function TrimRight(s: string): string {
    if s != "" && IsSpace(s[|s| - 1]) then TrimRight(s[..|s| - 1]) else s
  }

  function TrimSpace(s: string): string {
    TrimRight(TrimLeft(s))
  }

  /** The maximal runs of characters that are not white space. */
  function Fields(s: string): (fields: seq<string>)
    decreases |s|
  {
    var t := TrimLeft(s);
    if t == "" then []
    else
      var n := WordLength(t);
      TrimLeftShortens(s);
      [t[..n]] + Fields(t[n..])
  }

  function WordLength(s: string): (n: nat)
    ensures n <= |s| && (n == |s| || IsSpace(s[n]))
    ensures forall i :: 0 <= i < n ==> !IsSpace(s[i])
    ensures s != "" && !IsSpace(s[0]) ==> n > 0
  {
    if s == "" || IsSpace(s[0]) then 0 else 1 + WordLength(s[1..])
  }

  lemma TrimLeftShortens(s: string)
    ensures |TrimLeft(s)| <= |s|
    ensures TrimLeft(s) != "" ==> !IsSpace(TrimLeft(s)[0])
  {
  }

  predicate AllSpace(s: string) {
    forall i :: 0 <= i < |s| ==> IsSpace(s[i])
  }

  predicate Word(s: string) {
    s != "" && forall i :: 0 <= i < |s| ==> !IsSpace(s[i])
  }

  lemma {:induction false} TrimLeftGap(gap: string, s: string)
    requires AllSpace(gap) && s != "" && !IsSpace(s[0])
    ensures TrimLeft(gap + s) == s
  {
    if gap == "" {
      assert gap + s == s;
    } else {
      assert (gap + s)[1..] == gap[1..] + s;
      TrimLeftGap(gap[1..], s);
    }
  }

  /** Trimming on the right stops at a character that is not white space. */
  lemma {:induction false} TrimRightTail(s: string, tail: string)
    requires s != "" && !IsSpace(s[|s| - 1])
    ensures TrimRight(s + tail) == s + TrimRight(tail) && TrimRight(tail) <= tail
  {
    if tail == "" {
      assert s + tail == s;
    } else {
      assert (s + tail)[..|s + tail| - 1] == s + tail[..|tail| - 1];
      TrimRightTail(s, tail[..|tail| - 1]);
    }
  }

  lemma {:induction false} WordLengthOf(w: string, rest: string)
    requires forall i :: 0 <= i < |w| ==> !IsSpace(w[i])
    requires rest == "" || IsSpace(rest[0])
    ensures WordLength(w + rest) == |w|
  {
    if w == "" {
      assert w + rest == rest;
    } else {
      assert (w + rest)[1..] == w[1..] + rest;
      WordLengthOf(w[1..], rest);
    }
  }

  /** The first field after any white space is the whole word there. */
  lemma {:induction false} FirstField(gap: string, w: string, rest: string)
    requires AllSpace(gap) && Word(w) && (rest == "" || IsSpace(rest[0]))
    ensures Fields(gap + w + rest) == [w] + Fields(rest)
  {
    assert gap + w + rest == gap + (w + rest);
    TrimLeftGap(gap, w + rest);
    WordLengthOf(w, rest);
    assert (w + rest)[..|w|] == w && (w + rest)[|w|..] == rest;
  }

  /** The first field, if there is one, is a word after white space. */
  lemma {:induction false} FirstFieldParts(s: string) returns (gap: string, w: string, rest: string)
    requires Fields(s) != []
    ensures s == gap + w + rest && AllSpace(gap) && Word(w) && (rest == "" || IsSpace(rest[0]))
    ensures Fields(s) == [w] + Fields(rest)
  {
    gap := TrimLeftParts(s);
    var t := TrimLeft(s);
    TrimLeftShortens(s);
    w, rest := t[..WordLength(t)], t[WordLength(t)..];
    assert t == w + rest;
    assert s == gap + w + rest;
  }

  lemma {:induction false} TrimLeftParts(s: string) returns (gap: string)
    ensures AllSpace(gap) && s == gap + TrimLeft(s)
  {
    gap := "";
    if s != "" && IsSpace(s[0]) {
      var tail := TrimLeftParts(s[1..]);
      gap := [s[0]] + tail;
    }
  }

  lemma {:induction false} TrimRightParts(s: string) returns (gap: string)
    ensures AllSpace(gap) && s == TrimRight(s) + gap
    ensures TrimRight(s) == "" || !IsSpace(TrimRight(s)[|TrimRight(s)| - 1])
  {
    gap := "";
    if s != "" && IsSpace(s[|s| - 1]) {
      var head := TrimRightParts(s[..|s| - 1]);
      gap := head + [s[|s| - 1]];
    }
  }

  lemma {:induction false} TrimAllSpace(s: string)
    requires AllSpace(s)
    ensures TrimLeft(s) == "" && TrimRight(s) == ""
  {
    if s != "" {
      TrimAllSpace(s[1..]);
      TrimAllSpace(s[..|s| - 1]);
    }
  }

  /** Without white space at its ends. */
  predicate Bare(t: string) {
    t == "" || (!IsSpace(t[0]) && !IsSpace(t[|t| - 1]))
  }

  /** The text with white space around it. */
  ghost predicate Surrounded(s: string, t: string) {
    Bare(t) && exists lead, trail :: AllSpace(lead) && AllSpace(trail) && s == lead + t + trail
  }

  /** Trimming leaves exactly the text that the white space surrounds. */
  lemma {:induction false} TrimExact(s: string, t: string)
    ensures TrimSpace(s) == t <==> Surrounded(s, t)
  {
    hide IsSpace, TrimLeft, TrimRight;
    if TrimSpace(s) == t {
      TrimLeftShortens(s);
      var lead := TrimLeftParts(s);
      var trail := TrimRightParts(TrimLeft(s));
      assert s == lead + t + trail;
      assert t != "" ==> t[0] == TrimLeft(s)[0];
    }
    if Surrounded(s, t) {
      var lead, trail :| AllSpace(lead) && AllSpace(trail) && s == lead + t + trail;
      if t == "" {
        TrimAllSpace(lead + trail);
        assert s == lead + trail;
        TrimAllSpace("");
      } else {
        assert s == lead + (t + trail);
        TrimLeftGap(lead, t + trail);
        TrimRightTail(t, trail);
        TrimAllSpace(trail);
      }
    }
  }
}
