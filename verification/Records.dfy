/** Resource records, the lifetime policy for them and the key under which answers are cached. */
module Records {

  type byte = x: int | 0 <= x < 0x100
  type uint16 = x: int | 0 <= x < 0x1_0000
  type uint32 = x: int | 0 <= x < 0x1_0000_0000

  datatype Data = Cname(target: string) | A(octets: seq<byte>) | AAAA(octets: seq<byte>) | Other(rtype: uint16,
      rdata: seq<byte>)

  datatype RR = RR(owner: string, rclass: uint16, ttl: uint32, data: Data)

  /** Where a CNAME record leads. */
  function Target(rr: RR): string {
    match rr.data
    case Cname(target) => target
    case _ => ""
  }

  /** The lifetime policy: 0 means an hour, less than three minutes a quarter of an hour; then the
      result is held between five minutes and an hour. It is not monotone. */
  function NormalizeTtl(ttl: uint32): (effective: uint32)
    ensures 300 <= effective <= 3600
  {
    var raised := if ttl <= 0 then 3600 else if ttl < 180 then 900 else ttl;
    var floored := if raised < 300 then 300 else raised;
    if floored > 3600 then 3600 else floored
  }

  /** The policy in cases, and its kink: a record that lives a second longer may be kept ten minutes
      less. */
  lemma NormalizeTable(ttl: uint32)
    ensures ttl == 0 || ttl > 3600 ==> NormalizeTtl(ttl) == 3600
    ensures 0 < ttl < 180 ==> NormalizeTtl(ttl) == 900
    ensures 180 <= ttl <= 300 ==> NormalizeTtl(ttl) == 300
    ensures 300 <= ttl <= 3600 ==> NormalizeTtl(ttl) == ttl
    ensures NormalizeTtl(179) == 900 && NormalizeTtl(180) == 300
  {
  }

  function Digit(d: nat): char
    requires d < 10
  {
    '0' + d as char
  }

  function Decimal(n: nat): (s: string)
    ensures s != "" && forall i :: 0 <= i < |s| ==> '0' <= s[i] <= '9'
  {
    if n < 10 then [Digit(n)] else Decimal(n / 10) + [Digit(n % 10)]
  }

  lemma {:induction false} DecimalInjective(m: nat, n: nat)
    requires Decimal(m) == Decimal(n)
    ensures m == n
  {
    var s := Decimal(m);
    assert s[|s| - 1] == Digit(m % 10) == Digit(n % 10);
    if m >= 10 && n >= 10 {
      assert Decimal(m / 10) == s[..|s| - 1] == Decimal(n / 10);
      DecimalInjective(m / 10, n / 10);
    }
  }

  function CacheKey(name: string, qtype: uint16): string {
    name + "|" + Decimal(qtype)
  }

  /** Different (name, type) pairs have different cache keys, whatever characters names contain. */
  lemma {:induction false} CacheKeyInjective(m: string, p: uint16, n: string, q: uint16)
    requires CacheKey(m, p) == CacheKey(n, q)
    ensures m == n && p == q
  {
    var dp, dq := Decimal(p), Decimal(q);
    BarUnique(m, dp, n, dq);
    BarUnique(n, dq, m, dp);
    var s := CacheKey(m, p);
    assert s[..|m|] == m && s[..|n|] == n;
    assert s[|m| + 1..] == dp && s[|n| + 1..] == dq;
    DecimalInjective(p, q);
  }

  /** The bar in front of the digits is the last one. */
  lemma BarUnique(m: string, dm: string, n: string, dn: string)
    requires m + "|" + dm == n + "|" + dn
    requires '|' !in dm && '|' !in dn
    ensures |m| >= |n|
  {
    assert (n + "|" + dn)[|n|] == '|';
    assert (m + "|" + dm)[|n|] == '|';
  }

  /** The number that decimal digits stand for. */
  function Number(digits: string): int {
    if digits == "" then 0
    else Number(digits[..|digits| - 1]) * 10 + (digits[|digits| - 1] as int - '0' as int)
  }

  lemma {:induction false} NumberOfDecimal(n: nat)
    ensures Number(Decimal(n)) == n && (Decimal(n)[0] == '0' ==> n == 0)
  {
    var s := Decimal(n);
    assert s[|s| - 1] == Digit(n % 10);
    if n >= 10 {
      NumberOfDecimal(n / 10);
      assert s[..|s| - 1] == Decimal(n / 10);
      assert s[0] == Decimal(n / 10)[0];
    } else {
      assert s[..0] == "";
    }
  }

  /** A cache key is the name, a bar and the type in decimal digits. */
  lemma {:induction false} CacheKeyText(name: string, qtype: uint16)
    ensures exists digits :: CacheKey(name, qtype) == name + "|" + digits && Number(digits) == qtype &&
                             digits != "" && (digits[0] == '0' ==> digits == "0")
  {
    var digits := Decimal(qtype);
    NumberOfDecimal(qtype);
    assert CacheKey(name, qtype) == name + "|" + digits;
  }
}
