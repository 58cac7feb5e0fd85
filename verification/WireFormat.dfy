/** A codec that obeys the law of record codecs: the layout of section 3.2.1 of RFC 1035, names
    uncompressed. */
module WireFormat {
  import opened Text
  import opened Options
  import opened Records
  import opened Bytes
  import opened CacheCodec

  // Names.

  predicate PlainChar(c: char) {
    '!' <= c <= '~' && c !in ".'@;()\"\\"
  }

  function CharByte(c: char): byte
    requires PlainChar(c)
  {
    c as int
  }

  predicate GoodLabel(part: string) {
    1 <= |part| <= 63 && forall c :: c in part ==> PlainChar(c)
  }

  function LabelBytes(part: string): bytes
    requires GoodLabel(part)
  {
    var length: byte := |part|;
    [length] + seq(|part|, i requires 0 <= i < |part| => CharByte(part[i]))
  }

  function LabelsBytes(labels: seq<string>): bytes
    requires forall l :: l in labels ==> GoodLabel(l)
  {
    if labels == [] then [0] else LabelBytes(labels[0]) + LabelsBytes(labels[1..])
  }

  /** A fully qualified name as length-prefixed labels. */
  function PackName(name: string): Option<bytes> {
    if name == "." then Some([0])
    else if !HasSuffix(name, ".") then None
    else
      var labels := Split(name[..|name| - 1], '.');
      if (forall l :: l in labels ==> GoodLabel(l)) &&
          |LabelsBytes(labels)| <= 255 then Some(LabelsBytes(labels)) else None
  }

  function UnpackLabels(b: bytes): Option<(string, bytes)> {
    if b == [] then None
    else if b[0] == 0 then Some(("", b[1..]))
    else if b[0] > 63 || 1 + b[0] > |b| then None
    else
      var tail := UnpackLabels(b[1 + b[0]..]);
      if tail.None? then None else Some((LabelText(b, b[0]) + "." + tail.value.0, tail.value.1))
  }

  function UnpackName(b: bytes): Option<(string, bytes)> {
    var r := UnpackLabels(b);
    if r.Some? && r.value.0 == "" then Some((".", r.value.1)) else r
  }

  function Dots(labels: seq<string>): string {
    if labels == [] then "" else labels[0] + "." + Dots(labels[1..])
  }

  lemma {:induction false} DotsJoin(labels: seq<string>)
    requires labels != []
    ensures Dots(labels) == Join(labels, '.') + "."
  {
    if |labels| > 1 {
      DotsJoin(labels[1..]);
      assert labels[0] + "." + (Join(labels[1..], '.') + ".") == (labels[0] + ['.'] + Join(labels[1..], '.')) + ".";
    } else {
      assert labels[0] + "." + "" == labels[0] + ".";
    }
  }

  function LabelText(b: bytes, n: nat): string
    requires 1 + n <= |b|
  {
    seq(n, i requires 0 <= i < n => b[1 + i] as char)
  }

  lemma LabelRoundTrip(part: string, tail: bytes)
    requires GoodLabel(part)
    ensures var b := LabelBytes(part) + tail;
            0 < |part| <= 63 && |b| > |part| && b[0] == |part| && b[1 + |part|..] == tail &&
            LabelText(b, |part|) == part
  {
  }

  lemma {:induction false} UnpackPackLabels(labels: seq<string>, rest: bytes)
    requires forall l :: l in labels ==> GoodLabel(l)
    ensures UnpackLabels(LabelsBytes(labels) + rest) == Some((Dots(labels), rest))
  {
    hide GoodLabel, LabelBytes, LabelText;
    if labels == [] {
      assert ([0] + rest)[1..] == rest;
    } else {
      var part, tail := labels[0], LabelsBytes(labels[1..]) + rest;
      var b := LabelBytes(part) + tail;
      assert LabelsBytes(labels) + rest == b;
      LabelRoundTrip(part, tail);
      UnpackPackLabels(labels[1..], rest);
    }
  }

  lemma {:induction false} UnpackPackName(name: string, rest: bytes)
    requires PackName(name).Some?
    ensures UnpackName(PackName(name).value + rest) == Some((name, rest))
  {
    if name == "." {
      assert ([0] + rest)[1..] == rest;
    } else {
      var labels := Split(name[..|name| - 1], '.');
      UnpackPackLabels(labels, rest);
      DotsJoin(labels);
      JoinSplit(name[..|name| - 1], '.');
      assert name == name[..|name| - 1] + ".";
    }
  }

  // Records.

  function TypeCode(data: Data): uint16 {
    match data
    case Cname(_) => 5
    case A(_) => 1
    case AAAA(_) => 28
    case Other(rtype, _) => rtype
  }

  function PackData(data: Data): Option<bytes> {
    match data
    case Cname(target) => PackName(target)
    case A(octets) => if |octets| == 4 then Some(octets) else None
    case AAAA(octets) => if |octets| == 16 then Some(octets) else None
    case Other(rtype, rdata) => if rtype in {1, 5, 28} then None else Some(rdata)
  }

  function UnpackData(rtype: uint16, rdata: bytes): Option<Data> {
    if rtype == 5 then
      var name := UnpackName(rdata);
      if name.Some? && name.value.1 == [] then Some(Cname(name.value.0)) else None
    else if rtype == 1 then
      if |rdata| == 4 then Some(A(rdata)) else None
    else if rtype == 28 then
      if |rdata| == 16 then Some(AAAA(rdata)) else None
    else
      Some(Other(rtype, rdata))
  }

  lemma {:induction false} UnpackPackData(data: Data)
    requires PackData(data).Some?
    ensures UnpackData(TypeCode(data), PackData(data).value) == Some(data)
  {
    if data.Cname? {
      UnpackPackName(data.target, []);
      assert PackData(data).value + [] == PackData(data).value;
    }
  }

  /** A record as bytes, if its parts are encodable and it fits in a message. */
  function PackRR(rr: RR): (packed: Option<bytes>)
    ensures packed.Some? ==> |packed.value| <= MAX_MSG_SIZE
  {
    var owner, rdata := PackName(rr.owner), PackData(rr.data);
    if owner.None? || rdata.None? || |owner.value| + 10 + |rdata.value| > MAX_MSG_SIZE then None
    else
      Some(owner.value +
           (U16(TypeCode(rr.data)) + (U16(rr.rclass) + (U32(rr.ttl) + (U16(|rdata.value|) + rdata.value)))))
  }

  /** The record at the front of the bytes; whatever follows it is not looked at. */
  function UnpackRR(b: bytes): Option<RR> {
    var name := UnpackName(b);
    if name.None? || |name.value.1| < 10 then None
    else
      var fixed := name.value.1;
      var rtype, rclass, ttl, length := Read16(fixed), Read16(fixed[2..]), Read32(fixed[4..]), Read16(fixed[8..]);
      if 10 + length > |fixed| then None
      else
        var data := UnpackData(rtype, fixed[10..10 + length]);
        if data.None? then None else Some(RR(name.value.0, rclass, ttl, data.value))
  }

  lemma {:induction false} UnpackPackRR(rr: RR, rest: bytes)
    requires PackRR(rr).Some?
    ensures UnpackRR(PackRR(rr).value + rest) == Some(rr)
  {
    hide PackName, PackData, UnpackName, UnpackData, U16, U32, Read16, Read32;
    var owner, rdata := PackName(rr.owner).value, PackData(rr.data).value;
    var code := TypeCode(rr.data);
    var b4 := U16(|rdata|) + (rdata + rest);
    var b3 := U32(rr.ttl) + b4;
    var b2 := U16(rr.rclass) + b3;
    var b1 := U16(code) + b2;
    assert PackRR(rr).value + rest == owner + b1;
    UnpackPackName(rr.owner, b1);
    Read16Of(code, b2);
    Read16Of(rr.rclass, b3);
    Read32Of(rr.ttl, b4);
    Read16Of(|rdata|, rdata + rest);
    assert b1[2..] == b2 && b1[4..] == b2[2..] == b3 && b1[8..] == b3[4..] == b4;
    assert b1[10..10 + |rdata|] == b4[2..][..|rdata|] == rdata;
    UnpackPackData(rr.data);
  }

  /** The law is met by a codec that packs every record of plain names. */
  lemma UncompressedLawful()
    ensures Lawful(RecordCodec(PackRR, UnpackRR))
  {
    forall rr, rest | PackRR(rr).Some?
      ensures UnpackRR(PackRR(rr).value + rest) == Some(rr)
    {
      UnpackPackRR(rr, rest);
    }
  }

  /** The fields of a packed record: the name, then type, class, lifetime and data length as numbers, and
      the data. */
  lemma {:induction false} FieldLayout(rr: RR)
    requires PackRR(rr).Some?
    ensures PackName(rr.owner).Some? && PackData(rr.data).Some?
    ensures var b, n := PackRR(rr).value, |PackName(rr.owner).value|;
            |b| >= n + 10 && b[..n] == PackName(rr.owner).value && b[n + 10..] == PackData(rr.data).value &&
            Value(b[n..n + 2]) == TypeCode(rr.data) && Value(b[n + 2..n + 4]) == rr.rclass &&
            Value(b[n + 4..n + 8]) == rr.ttl && Value(b[n + 8..n + 10]) == |b| - n - 10
  {
    hide PackName, PackData, U16, U32;
    var owner, rdata := PackName(rr.owner).value, PackData(rr.data).value;
    ValueOf(TypeCode(rr.data));
    ValueOf(rr.rclass);
    ValueOf(rr.ttl);
    ValueOf(|rdata|);
    FiveParts(owner, U16(TypeCode(rr.data)), U16(rr.rclass), U32(rr.ttl), U16(|rdata|), rdata);
  }

  lemma FiveParts(a: bytes, b: bytes, c: bytes, d: bytes, e: bytes, f: bytes)
    requires |b| == |c| == |e| == 2 && |d| == 4
    ensures var all, n := a + (b + (c + (d + (e + f)))), |a|;
            |all| == n + 10 + |f| && all[..n] == a && all[n..n + 2] == b && all[n + 2..n + 4] == c &&
            all[n + 4..n + 8] == d && all[n + 8..n + 10] == e && all[n + 10..] == f
  {
  }
}
