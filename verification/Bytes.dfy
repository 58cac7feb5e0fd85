/** Numbers as bytes, most significant byte first. */
module Bytes {
  import opened Records

  type bytes = seq<byte>

  function U16(n: uint16): (b: bytes)
    ensures |b| == 2
  {
    [n / 0x100, n % 0x100]
  }

  function U32(n: uint32): (b: bytes)
    ensures |b| == 4
  {
    U16(n / 0x1_0000) + U16(n % 0x1_0000)
  }

  function U64(n: nat): bytes
    requires n < 0x1_0000_0000_0000_0000
  {
    U32(n / 0x1_0000_0000) + U32(n % 0x1_0000_0000)
  }

  function Read16(b: bytes): (n: uint16)
    requires |b| >= 2
  {
    var hi: int := b[0];
    hi * 0x100 + b[1]
  }

  function Read32(b: bytes): (n: uint32)
    requires |b| >= 4
  {
    Read16(b) * 0x1_0000 + Read16(b[2..])
  }

  function Read64(b: bytes): (n: nat)
    requires |b| >= 8
    ensures n < 0x1_0000_0000_0000_0000
  {
    Read32(b) * 0x1_0000_0000 + Read32(b[4..])
  }

  lemma Read16Of(n: uint16, rest: bytes)
    ensures Read16(U16(n) + rest) == n && (U16(n) + rest)[2..] == rest
  {
  }

  lemma Read32Of(n: uint32, rest: bytes)
    ensures Read32(U32(n) + rest) == n && (U32(n) + rest)[4..] == rest
  {
    var hi, lo := n / 0x1_0000, n % 0x1_0000;
    assert U32(n) + rest == U16(hi) + (U16(lo) + rest);
    Read16Of(hi, U16(lo) + rest);
    Read16Of(lo, rest);
  }

  lemma Read64Of(n: nat, rest: bytes)
    requires n < 0x1_0000_0000_0000_0000
    ensures Read64(U64(n) + rest) == n && (U64(n) + rest)[8..] == rest
  {
    var hi, lo := n / 0x1_0000_0000, n % 0x1_0000_0000;
    assert U64(n) + rest == U32(hi) + (U32(lo) + rest);
    Read32Of(hi, U32(lo) + rest);
    Read32Of(lo, rest);
  }

  /** The number that bytes stand for, most significant byte first. */
  function Value(b: bytes): nat {
    if b == [] then 0 else Value(b[..|b| - 1]) * 0x100 + b[|b| - 1]
  }

  lemma ValueOf16(front: bytes, n: uint16)
    ensures Value(front + U16(n)) == Value(front) * 0x1_0000 + n
  {
    var b := front + U16(n);
    assert b[..|b| - 1] == front + [n / 0x100];
    assert (front + [n / 0x100])[..|front|] == front;
  }

  lemma ValueOf32(front: bytes, n: uint32)
    ensures Value(front + U32(n)) == Value(front) * 0x1_0000_0000 + n
  {
    var hi, lo := n / 0x1_0000, n % 0x1_0000;
    ValueOf16(front, hi);
    ValueOf16(front + U16(hi), lo);
    assert front + U32(n) == front + U16(hi) + U16(lo);
  }

  /** Written numbers stand for themselves. */
  lemma {:induction false} ValueOf(n: nat)
    ensures n < 0x1_0000 ==> |U16(n)| == 2 && Value(U16(n)) == n
    ensures n < 0x1_0000_0000 ==> |U32(n)| == 4 && Value(U32(n)) == n
    ensures n < 0x1_0000_0000_0000_0000 ==> |U64(n)| == 8 && Value(U64(n)) == n
  {
    assert Value([]) == 0;
    if n < 0x1_0000 {
      ValueOf16([], n);
      assert [] + U16(n) == U16(n);
    }
    if n < 0x1_0000_0000 {
      ValueOf32([], n);
      assert [] + U32(n) == U32(n);
    }
    if n < 0x1_0000_0000_0000_0000 {
      var hi, lo := n / 0x1_0000_0000, n % 0x1_0000_0000;
      ValueOf32([], hi);
      assert [] + U32(hi) == U32(hi);
      ValueOf32(U32(hi), lo);
    }
  }
}
