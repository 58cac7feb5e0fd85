/** The byte format of cached answers and the cache that holds them: an expiry header, then
    length-prefixed records as the DNS library packs them. */
module CacheCodec {
  import opened Text
  import opened Options
  import opened Records
  import opened Bytes

  /** How the DNS library turns a record into bytes, if it can, and reads the record at the front of
      some bytes, whatever follows it. */
  datatype RecordCodec = RecordCodec(pack: RR -> Option<bytes>, unpack: bytes -> Option<RR>)

  const MAX_MSG_SIZE := 65535

  /** Records are packed into a buffer of the size of a message, and unpacking undoes packing. */
  ghost predicate Lawful(codec: RecordCodec) {
    (forall rr {:trigger codec.pack(rr)} :: codec.pack(rr).Some? ==> |codec.pack(rr).value| <= MAX_MSG_SIZE) &&
    forall rr, rest {:trigger codec.pack(rr).value + rest} :: codec.pack(rr).Some? ==>
      codec.unpack(codec.pack(rr).value + rest) == Some(rr)
  }

  predicate Packs(codec: RecordCodec, rr: RR) {
    codec.pack(rr).Some?
  }

  predicate AllPack(codec: RecordCodec, rrs: seq<RR>) {
    forall i :: 0 <= i < |rrs| ==> Packs(codec, rrs[i])
  }

  /** The records of a list that can be stored; the others are skipped. */
  function Kept(codec: RecordCodec, rrs: seq<RR>): seq<RR> {
    if rrs == [] then []
    else Kept(codec, rrs[..|rrs| - 1]) + if Packs(codec, rrs[|rrs| - 1]) then [rrs[|rrs| - 1]] else []
  }

  lemma {:induction false} KeptAll(codec: RecordCodec, rrs: seq<RR>)
    requires AllPack(codec, rrs)
    ensures Kept(codec, rrs) == rrs
  {
    if rrs != [] {
      KeptAll(codec, rrs[..|rrs| - 1]);
    }
  }

  lemma {:induction false} KeptAmong(codec: RecordCodec, rrs: seq<RR>)
    ensures forall rr :: rr in Kept(codec, rrs) ==> rr in rrs
  {
    hide Packs;
    if rrs != [] {
      KeptAmong(codec, rrs[..|rrs| - 1]);
    }
  }

  lemma {:induction false} KeptConcat(codec: RecordCodec, a: seq<RR>, b: seq<RR>)
    ensures Kept(codec, a + b) == Kept(codec, a) + Kept(codec, b)
    decreases |b|
  {
    if b == [] {
      assert a + b == a;
    } else {
      assert (a + b)[..|a + b| - 1] == a + b[..|b| - 1];
      KeptConcat(codec, a, b[..|b| - 1]);
    }
  }

  /** What can be stored can be stored again. */
  lemma {:induction false} KeptTwice(codec: RecordCodec, rrs: seq<RR>)
    ensures Kept(codec, Kept(codec, rrs)) == Kept(codec, rrs)
  {
    if rrs != [] {
      var front, last := rrs[..|rrs| - 1], rrs[|rrs| - 1];
      KeptTwice(codec, front);
      KeptConcat(codec, Kept(codec, front), if Packs(codec, last) then [last] else []);
      KeptOne(codec, last);
    }
  }

  lemma KeptNone(codec: RecordCodec)
    ensures Kept(codec, []) == []
  {
  }

  lemma KeptOne(codec: RecordCodec, rr: RR)
    ensures Kept(codec, [rr]) == if Packs(codec, rr) then [rr] else []
  {
    assert [rr][..0] == [] && Kept(codec, []) == [];
  }

  /** The length is truncated to 16 bits. */
  function Frame(packed: bytes): bytes {
    U16(|packed| % 0x1_0000) + packed
  }

  function Frames(codec: RecordCodec, rrs: seq<RR>): bytes {
    if rrs == [] then []
    else
      var packed := codec.pack(rrs[|rrs| - 1]);
      Frames(codec, rrs[..|rrs| - 1]) + if packed.Some? then Frame(packed.value) else []
  }

  /** Reading frames from any bytes: a frame that does not fit ends the list, a frame that holds
      no record is skipped. */
  function ReadFrames(codec: RecordCodec, b: bytes): seq<RR> {
    if |b| < 2 || 2 + Read16(b) > |b| then []
    else OneRecord(codec.unpack(b[2..])) + ReadFrames(codec, b[2 + Read16(b)..])
  }

  function OneRecord(rr: Option<RR>): seq<RR> {
    if rr.Some? then [rr.value] else []
  }

  /** The layout of an entry: the second of expiry in eight bytes, then for each record that packs, in
      order, its length in two bytes and what it packs to. */
  lemma {:induction false} EntryLayout(codec: RecordCodec, expire: nat, rrs: seq<RR>, rr: RR)
    requires Lawful(codec) && expire < 0x8000_0000_0000_0000
    ensures |EntryBytes(codec, expire, [])| == 8 && Value(EntryBytes(codec, expire, [])) == expire
    ensures var entry, longer := EntryBytes(codec, expire, rrs), EntryBytes(codec, expire, rrs + [rr]);
            if codec.pack(rr).None? then longer == entry
            else
              var n := |entry|;
              longer[..n] == entry && |longer| == n + 2 + |codec.pack(rr).value| &&
              Value(longer[n..n + 2]) == |codec.pack(rr).value| && longer[n + 2..] == codec.pack(rr).value
  {
    hide U64, Frame, Lawful;
    ValueOf(expire);
    assert U64(expire) + [] == U64(expire);
    assert (rrs + [rr])[..|rrs|] == rrs;
    if codec.pack(rr).Some? {
      var packed := codec.pack(rr).value;
      var entry := EntryBytes(codec, expire, rrs);
      AppendAssoc(U64(expire), Frames(codec, rrs), Frame(packed));
      assert EntryBytes(codec, expire, rrs + [rr]) == entry + Frame(packed);
      FrameLayout(codec, rr, entry);
    }
  }

  lemma FrameLayout(codec: RecordCodec, rr: RR, before: bytes)
    requires Lawful(codec) && codec.pack(rr).Some?
    ensures var packed, n := codec.pack(rr).value, |before|;
            var longer := before + Frame(packed);
            longer[..n] == before && |longer| == n + 2 + |packed| &&
            Value(longer[n..n + 2]) == |packed| && longer[n + 2..] == packed
  {
    hide U16, Value;
    var packed := codec.pack(rr).value;
    ValueOf(|packed|);
    var longer, n := before + Frame(packed), |before|;
    assert longer[n..n + 2] == U16(|packed|);
  }

  /** The records read so far, followed by those still to be read, are those of the buffer. */
  ghost predicate ReadUpTo(codec: RecordCodec, buf: bytes, offset: nat, rrs: seq<RR>) {
    offset <= |buf| && rrs + ReadFrames(codec, buf[offset..]) == ReadFrames(codec, buf)
  }

  lemma ReadOn(codec: RecordCodec, buf: bytes, offset: nat, next: nat, rrs: seq<RR>, one: seq<RR>)
    requires ReadUpTo(codec, buf, offset, rrs) && next <= |buf|
    requires ReadFrames(codec, buf[offset..]) == one + ReadFrames(codec, buf[next..])
    ensures ReadUpTo(codec, buf, next, rrs + one)
  {
    AppendAssoc(rrs, one, ReadFrames(codec, buf[next..]));
  }

  lemma ReadEnds(codec: RecordCodec, buf: bytes, offset: nat, rrs: seq<RR>)
    requires ReadUpTo(codec, buf, offset, rrs) && ReadFrames(codec, buf[offset..]) == []
    ensures rrs == ReadFrames(codec, buf)
  {
  }

  lemma {:induction false} ReadOneFrame(codec: RecordCodec, rr: RR, rest: bytes)
    requires Lawful(codec) && Packs(codec, rr)
    ensures ReadFrames(codec, Frame(codec.pack(rr).value) + rest) == [rr] + ReadFrames(codec, rest)
  {
    hide U16, Read16;
    var packed := codec.pack(rr).value;
    var b := Frame(packed) + rest;
    assert b == U16(|packed|) + (packed + rest);
    Read16Of(|packed|, packed + rest);
    assert b[2 + |packed|..] == rest;
  }

  lemma {:induction false} ReadFramesOf(codec: RecordCodec, rrs: seq<RR>, rest: bytes)
    requires Lawful(codec)
    ensures ReadFrames(codec, Frames(codec, rrs) + rest) == Kept(codec, rrs) + ReadFrames(codec, rest)
  {
    hide Lawful, Frame, ReadFrames;
    if rrs == [] {
      assert Frames(codec, rrs) + rest == rest;
    } else {
      var front, last := rrs[..|rrs| - 1], rrs[|rrs| - 1];
      if Packs(codec, last) {
        var frame := Frame(codec.pack(last).value);
        assert Frames(codec, rrs) + rest == Frames(codec, front) + (frame + rest);
        ReadFramesOf(codec, front, frame + rest);
        ReadOneFrame(codec, last, rest);
      } else {
        assert Frames(codec, rrs) == Frames(codec, front) && Kept(codec, rrs) == Kept(codec, front);
        ReadFramesOf(codec, front, rest);
      }
    }
  }

  lemma {:induction false} FramesEmpty(codec: RecordCodec, rrs: seq<RR>)
    ensures Frames(codec, rrs) == [] <==> Kept(codec, rrs) == []
  {
    if rrs != [] {
      FramesEmpty(codec, rrs[..|rrs| - 1]);
    }
  }

  /** What reading an entry gives. An entry whose records all fail to decode reads as a miss but
      stays; an entry without bytes after the header is a negative answer. */
  datatype Reading = Expired | Undecodable | Found(rrs: seq<RR>)

  /** The header is compared as a signed number. */
  function Signed64(n: nat): int {
    if n < 0x8000_0000_0000_0000 then n else n - 0x1_0000_0000_0000_0000
  }

  function ReadEntry(codec: RecordCodec, val: bytes, now: int): Reading
    requires |val| >= 8
  {
    if now > Signed64(Read64(val)) then Expired
    else if val[8..] == [] then Found([])
    else
      var rrs := ReadFrames(codec, val[8..]);
      if rrs == [] then Undecodable else Found(rrs)
  }

  function EntryBytes(codec: RecordCodec, expire: nat, rrs: seq<RR>): bytes
    requires expire < 0x8000_0000_0000_0000
  {
    U64(expire) + Frames(codec, rrs)
  }

  /** Reading undoes writing up to and including the second of expiry, and not after it. */
  lemma {:induction false} ReadWrittenEntry(codec: RecordCodec, expire: nat, rrs: seq<RR>, now: int)
    requires Lawful(codec) && expire < 0x8000_0000_0000_0000
    ensures ReadEntry(codec, EntryBytes(codec, expire, rrs), now) ==
            if now <= expire then Found(Kept(codec, rrs)) else Expired
  {
    Read64Of(expire, Frames(codec, rrs));
    FramesEmpty(codec, rrs);
    ReadFramesOf(codec, rrs, []);
    assert Frames(codec, rrs) + [] == Frames(codec, rrs);
    assert ReadFrames(codec, []) == [];
  }

  datatype Entry = Entry(expire: nat, rrs: seq<RR>)

  type Cache = map<string, Entry>

  function Lookup(cache: Cache, key: string, now: nat): Option<seq<RR>> {
    if key in cache && now <= cache[key].expire then Some(cache[key].rrs) else None
  }

  /** A lookup deletes an entry it finds expired. */
  function Purge(cache: Cache, key: string, now: nat): Cache {
    if key in cache && now > cache[key].expire then cache - {key} else cache
  }

  function Put(codec: RecordCodec, cache: Cache, key: string, rrs: seq<RR>, ttl: uint32, now: nat): Cache {
    cache[key := Entry(now + ttl, Kept(codec, rrs))]
  }

  /** Unix time; far from the end of the 64-bit range. */
  type Seconds = t: nat | t < 0x4000_0000_0000_0000

  /** Reads the frame at an offset: where the next one starts and the record, if it decodes; or
      nothing, if the frame does not fit. */
  method NextFrame(codec: RecordCodec, buf: bytes, offset: nat) returns (next: Option<nat>, rr: Option<RR>)
    requires offset < |buf|
    ensures next.None? ==> ReadFrames(codec, buf[offset..]) == []
    ensures next.Some? ==> offset < next.value <= |buf|
    ensures next.Some? ==> ReadFrames(codec, buf[offset..]) == OneRecord(rr) + ReadFrames(codec, buf[next.value..])
  {
    ghost var rest := buf[offset..];
    if offset + 2 > |buf| {
      return None, None;
    }
    var packedLen := Read16(buf[offset..offset + 2]);
    assert Read16(rest) == packedLen && rest[2..] == buf[offset + 2..];
    if offset + 2 + packedLen > |buf| {
      return None, None;
    }
    assert rest[2 + packedLen..] == buf[offset + 2 + packedLen..];
    rr := codec.unpack(buf[offset + 2..]);
    next := Some(offset + 2 + packedLen);
  }

  /** Decodes the records after the header of an entry, whatever the bytes are. */
  method DecodeRecords(codec: RecordCodec, buf: bytes) returns (rrs: seq<RR>)
    ensures rrs == ReadFrames(codec, buf)
  {
    rrs := [];
    var offset := 0;
    assert buf[0..] == buf;
    while offset < |buf|
      invariant ReadUpTo(codec, buf, offset, rrs)
      decreases |buf| - offset
    {
      var next, rr := NextFrame(codec, buf, offset);
      if next.None? {
        break;
      }
      ReadOn(codec, buf, offset, next.value, rrs, OneRecord(rr));
      rrs := rrs + OneRecord(rr);
      offset := next.value;
    }
    ReadEnds(codec, buf, offset, rrs);
  }

  lemma FramesStep(codec: RecordCodec, header: bytes, rrs: seq<RR>, i: nat)
    requires i < |rrs|
    ensures var before, packed := header + Frames(codec, rrs[..i]), codec.pack(rrs[i]);
            header + Frames(codec, rrs[..i + 1]) ==
              if packed.None? then before else before + U16(|packed.value| % 0x1_0000) + packed.value
  {
    assert rrs[..i + 1][..i] == rrs[..i];
    if Packs(codec, rrs[i]) {
      var front, packed := Frames(codec, rrs[..i]), codec.pack(rrs[i]).value;
      var length := U16(|packed| % 0x1_0000);
      AppendAssoc(header, front, length + packed);
      AppendAssoc(header + front, length, packed);
    }
  }

  /** Encodes the records that can be packed after the given header. */
  method EncodeRecords(codec: RecordCodec, header: bytes, rrs: seq<RR>) returns (buf: bytes)
    ensures buf == header + Frames(codec, rrs)
  {
    buf := header;
    for i := 0 to |rrs|
      invariant buf == header + Frames(codec, rrs[..i])
    {
      FramesStep(codec, header, rrs, i);
      var packed := codec.pack(rrs[i]);
      if packed.None? {
        continue;
      }
      buf := buf + U16(|packed.value| % 0x1_0000);
      buf := buf + packed.value;
    }
    assert rrs[..|rrs|] == rrs;
  }

  class DnsCache {
    const codec: RecordCodec
    var entries: map<string, bytes>

    /** Every stored buffer was written by Set. */
    ghost predicate Valid()
      reads this
    {
      Lawful(codec) && forall k :: k in entries ==> Written(codec, entries[k])
    }

    ghost function View(): Cache
      requires Valid()
      reads this
    {
      DecodeAll(codec, entries)
    }

    constructor (codec: RecordCodec)
      requires Lawful(codec)
      ensures Valid() && this.codec == codec && View() == map[]
    {
      this.codec, entries := codec, map[];
    }

    method Get(key: string, now: Seconds) returns (r: Option<seq<RR>>)
      requires Valid()
      modifies this
      ensures Valid()
      ensures r == Lookup(old(View()), key, now)
      ensures View() == Purge(old(View()), key, now)
    {
      hide Written, Decoded, ReadFrames;
      if key !in entries {
        return None;
      }
      var val := entries[key];
      WrittenEntry(codec, val, now);
      var expire := Read64(val[..8]);
      assert val[..8][4..] == val[4..8];
      if now > Signed64(expire) {
        entries := entries - {key};
        return None;
      }
      var buf := val[8..];
      if |buf| == 0 {
        return Some([]);
      }
      var rrs := DecodeRecords(codec, buf);
      return if rrs == [] then None else Some(rrs);
    }

    method Set(key: string, rrs: seq<RR>, ttl: uint32, now: Seconds)
      requires Valid()
      modifies this
      ensures Valid()
      ensures View() == Put(codec, old(View()), key, rrs, ttl, now)
    {
      hide Written, Decoded, Kept;
      var expire := now + ttl;
      var buf := EncodeRecords(codec, U64(expire), rrs);
      assert buf == EntryBytes(codec, expire, rrs);
      StoreDecoded(codec, entries, key, rrs, ttl, now);
      entries := entries[key := buf];
    }
  }

  function DecodeAll(codec: RecordCodec, entries: map<string, bytes>): Cache {
    map k | k in entries :: Decoded(codec, entries[k])
  }

  lemma StoreDecoded(codec: RecordCodec, entries: map<string, bytes>, key: string, rrs: seq<RR>, ttl: uint32,
      now: Seconds)
    requires Lawful(codec)
    ensures DecodeAll(codec, entries[key := EntryBytes(codec, now + ttl, rrs)]) ==
            Put(codec, DecodeAll(codec, entries), key, rrs, ttl, now)
    ensures Written(codec, EntryBytes(codec, now + ttl, rrs))
  {
    hide Decoded, Kept;
    DecodedEntry(codec, now + ttl, rrs);
  }

  ghost predicate Written(codec: RecordCodec, val: bytes) {
    exists expire: nat, rrs :: expire < 0x8000_0000_0000_0000 && val == EntryBytes(codec, expire, rrs)
  }

  function Decoded(codec: RecordCodec, val: bytes): Entry {
    if |val| < 8 then Entry(0, []) else Entry(Read64(val), ReadFrames(codec, val[8..]))
  }

  lemma {:induction false} DecodedEntry(codec: RecordCodec, expire: nat, rrs: seq<RR>)
    requires Lawful(codec) && expire < 0x8000_0000_0000_0000
    ensures var val := EntryBytes(codec, expire, rrs);
            Written(codec, val) && Decoded(codec, val) == Entry(expire, Kept(codec, rrs))
  {
    Read64Of(expire, Frames(codec, rrs));
    ReadFramesOf(codec, rrs, []);
    assert Frames(codec, rrs) + [] == Frames(codec, rrs);
    assert ReadFrames(codec, []) == [];
  }

  lemma {:induction false} WrittenEntry(codec: RecordCodec, val: bytes, now: nat)
    requires Lawful(codec) && Written(codec, val)
    ensures |val| >= 8 && Read64(val) == Decoded(codec, val).expire == Signed64(Read64(val))
    ensures var e := Decoded(codec, val);
            ReadEntry(codec, val, now) == if now <= e.expire then Found(e.rrs) else Expired
  {
    var expire: nat, rrs :| expire < 0x8000_0000_0000_0000 && val == EntryBytes(codec, expire, rrs);
    DecodedEntry(codec, expire, rrs);
    ReadWrittenEntry(codec, expire, rrs, now);
  }
}
