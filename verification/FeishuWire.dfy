/**
 The wire form of Feishu frames with its literal numbers
 (components/cap_im_platform/src/cap_im_feishu.c, lines 678-834 and 853-954; Protocol Buffers Encoding
 guide, sections "Base 128 Varints" and "Message Structure"): what each tag sets when it is read, and
 the bytes that are sent.
 Main results: ReadVarintIff, ScalarTags, BytesTags, HeaderTags, SentBytes.
 */
module FeishuWire {
  import opened Common
  import opened FeishuVarint
  import opened FeishuFrame
  import opened FeishuCodec
  import opened FeishuHeader

  // ---- Varints ----

  /** The number whose groups of seven bits these bytes carry, least significant first. */
  ghost function Groups(s: seq<byte>): nat {
    if s == [] then 0 else s[0] % 128 + 128 * Groups(s[1..])
  }

  /** Every byte but the last has its high bit set. */
  ghost predicate Terminated(s: seq<byte>) {
    s != [] && s[|s| - 1] < 128 && forall i | 0 <= i < |s| - 1 :: s[i] >= 128
  }

  /** A value is written as the shortest terminated bytes that carry it. */
  lemma {:induction false} VarintIs(v: nat)
    ensures Terminated(Varint(v)) && Groups(Varint(v)) == v
    ensures |Varint(v)| > 1 ==> Varint(v)[|Varint(v)| - 1] != 0
  {
    if v >= 128 {
      VarintIs(v / 128);
      assert Varint(v) == [v % 128 + 128] + Varint(v / 128);
      OneMoreGroup(v % 128 + 128, Varint(v / 128));
    } else {
      assert Varint(v)[1..] == [];
    }
  }

  lemma OneMoreGroup(b: byte, s: seq<byte>)
    requires b >= 128 && Terminated(s)
    ensures Terminated([b] + s) && Groups([b] + s) == b % 128 + 128 * Groups(s)
  {
    assert ([b] + s)[1..] == s;
  }

  lemma TagByte(t: nat)
    requires t < 128
    ensures Varint(t) == [t]
  {
  }

  lemma ModSum(a: nat, x: nat)
    requires a + x % U64 < U64
    ensures (a + x) % U64 == a + x % U64
  {
    assert (a + x) - (a + x % U64) == (x / U64) * U64;
    ModOf(x / U64, a + x % U64);
  }

  lemma ModLater(a: nat, b: nat)
    ensures (a % U64 + b) % U64 == (a + b) % U64
  {
    assert a + b == (a / U64) * U64 + (a % U64 + b);
    var r := a % U64 + b;
    assert a + b == (a / U64 + r / U64) * U64 + r % U64;
    ModOf(a / U64 + r / U64, r % U64);
  }

  lemma TwoGroups(x: nat, g: nat, p: nat)
    ensures (x + 128 * g) * p == x * p + g * (128 * p)
  {
    Distribute(x, 128 * g, p);
    Reassociate(g, p);
  }

  lemma GroupScaled(x: nat, g: nat, shift: nat, value: nat)
    ensures ((value + x * Pow2(shift)) % U64 + g * Pow2(shift + 7)) % U64 == (value + (x + 128 * g) * Pow2(shift)) % U64
  {
    hide Pow2;
    Pow2Add(shift, 7);
    SevenBits();
    TwoGroups(x, g, Pow2(shift));
    ModLater(value + x * Pow2(shift), g * Pow2(shift + 7));
  }

  /** What the loop makes of the bytes from pos on, at this shift and with this much read. */
  ghost predicate Reads(buf: seq<byte>, pos: nat, shift: nat, value: nat, r: Option<Read>)
    requires pos <= |buf|
  {
    if r.Some? then
      && pos < r.value.pos <= |buf| && 7 * (r.value.pos - pos) + shift <= 70
      && Terminated(buf[pos..r.value.pos])
      && r.value.value == (value + Groups(buf[pos..r.value.pos]) * Pow2(shift)) % U64
    else forall i | pos <= i < |buf| && 7 * (i - pos) + shift < 70 :: buf[i] >= 128
  }

  /** The partial value after one more byte. */
  ghost function With(buf: seq<byte>, pos: nat, shift: nat, value: nat): nat
    requires pos < |buf|
  {
    (value + (buf[pos] % 128) * Pow2(shift)) % U64
  }

  lemma ReadsLast(buf: seq<byte>, pos: nat, shift: nat, value: nat)
    requires pos < |buf| && buf[pos] < 128 && shift <= 63
    ensures Reads(buf, pos, shift, value, Some(Read(With(buf, pos, shift, value), pos + 1)))
  {
    hide Pow2;
    assert buf[pos..pos + 1] == [buf[pos]] && [buf[pos]][1..] == [];
    assert Groups([buf[pos]]) == buf[pos] + 128 * Groups([]);
  }

  lemma ReadsOn(buf: seq<byte>, pos: nat, shift: nat, value: nat, r: Option<Read>)
    requires pos < |buf| && buf[pos] >= 128
    requires Reads(buf, pos + 1, shift + 7, With(buf, pos, shift, value), r)
    ensures Reads(buf, pos, shift, value, r)
  {
    hide Pow2, Groups, Terminated;
    if r.Some? {
      var rest := buf[pos + 1..r.value.pos];
      assert buf[pos..r.value.pos] == [buf[pos]] + rest;
      OneMoreGroup(buf[pos], rest);
      GroupScaled(buf[pos] % 128, Groups(rest), shift, value);
    }
  }

  lemma ReadFromStep(buf: seq<byte>, pos: nat, shift: nat, value: nat)
    requires pos < |buf| && shift <= 63 && value < Pow2(shift)
    ensures With(buf, pos, shift, value) < Pow2(shift + 7)
    ensures ReadFrom(buf, pos, shift, value)
         == if buf[pos] < 128 then Some(Read(With(buf, pos, shift, value), pos + 1))
            else ReadFrom(buf, pos + 1, shift + 7, With(buf, pos, shift, value))
  {
    hide Pow2;
    GroupFits(buf[pos] % 128, shift, value);
    ModSum(value, (buf[pos] % 128) * Pow2(shift));
  }

  /** The reading loop from the middle of a varint on. */
  lemma {:induction false} ReadFromIs(buf: seq<byte>, pos: nat, shift: nat, value: nat)
    requires pos <= |buf| && value < Pow2(shift) && shift % 7 == 0 && shift <= 70
    ensures Reads(buf, pos, shift, value, ReadFrom(buf, pos, shift, value))
    decreases |buf| - pos
  {
    hide Pow2, Groups, Terminated, With;
    if pos < |buf| && shift <= 63 {
      hide Reads, ReadFrom;
      ReadFromStep(buf, pos, shift, value);
      if buf[pos] < 128 {
        ReadsLast(buf, pos, shift, value);
      } else {
        ReadFromIs(buf, pos + 1, shift + 7, With(buf, pos, shift, value));
        ReadsOn(buf, pos, shift, value, ReadFrom(buf, pos, shift, value));
      }
    }
  }

  /**
   The reader takes the terminated bytes at its position, ten at most, as the number they carry, cut to 64
   bits; it fails exactly when the next ten bytes, or what there is of them, all have their high bit set.
   */
  lemma ReadVarintIff(buf: seq<byte>, pos: nat)
    requires pos <= |buf|
    ensures match ReadVarint(buf, pos)
      case Some(r) =>
        && pos < r.pos <= |buf| && r.pos - pos <= 10
        && Terminated(buf[pos..r.pos]) && r.value == Groups(buf[pos..r.pos]) % 0x1_0000_0000_0000_0000
      case None => forall i | pos <= i < |buf| && i < pos + 10 :: buf[i] >= 128
  {
    ReadFromIs(buf, pos, 0, 0);
  }

  // ---- Reading a field ----

  /** The 32-bit number in two's complement. */
  ghost function Signed32(v: nat): int {
    var low := v % 0x1_0000_0000;
    if low < 0x8000_0000 then low else low - 0x1_0000_0000
  }

  lemma TagRead(t: u64, rest: seq<byte>)
    ensures var tag := Varint(t);
      |tag| <= 10 && ReadVarint(tag + rest, 0) == Some(Read(t, |tag|))
  {
    VarintRoundTrip([], t, rest);
    assert [] + Varint(t) + rest == Varint(t) + rest;
  }

  /**
   A varint after tag 8, 16, 24 or 32 (or any tag that keeps those five low bits of wire type and 32 bits of
   field number) sets the sequence id, the log id, the service or the method, and nothing else.
   */
  lemma ScalarTags(t: u64, v: u64, f: Frame)
    requires t % 8 == 0 && 1 <= (t / 8) % 0x1_0000_0000 <= 4
    ensures |Varint(t) + Varint(v)| <= 20
    ensures var read := ParseFrom(Varint(t) + Varint(v), 0, f);
      var field := (t / 8) % 0x1_0000_0000;
      && (field == 1 ==> read == Parsed(f.(seqId := v)))
      && (field == 2 ==> read == Parsed(f.(logId := v)))
      && (field == 3 ==> read == Parsed(f.(service := Signed32(v))))
      && (field == 4 ==> read == Parsed(f.(method_ := Signed32(v))))
  {
    hide ReadFrom, Varint;
    TagRead(t, Varint(v));
    VarintRoundTrip(Varint(t), v, []);
    assert Varint(t) + Varint(v) + [] == Varint(t) + Varint(v);
  }

  /** A varint after the single tag byte of field 1 to 4. */
  lemma ScalarTagByte(field: nat, v: u64, f: Frame)
    requires 1 <= field <= 4
    ensures |Varint(v)| <= 10
    ensures var read := ParseFrom([8 * field] + Varint(v), 0, f);
      && (field == 1 ==> read == Parsed(f.(seqId := v)))
      && (field == 2 ==> read == Parsed(f.(logId := v)))
      && (field == 3 ==> read == Parsed(f.(service := Signed32(v))))
      && (field == 4 ==> read == Parsed(f.(method_ := Signed32(v))))
  {
    hide ParseFrom, Varint, ReadFrom, Signed32;
    VarintRoundTrip([], v, []);
    TagByte(8 * field);
    ScalarTags(8 * field, v, f);
  }

  /** The same for the four literal tags, on the bytes as received. */
  lemma LiteralTags(v: u64, f: Frame)
    ensures |Varint(v)| <= 10
    ensures ParseFrom([8] + Varint(v), 0, f) == Parsed(f.(seqId := v))
    ensures ParseFrom([16] + Varint(v), 0, f) == Parsed(f.(logId := v))
    ensures ParseFrom([24] + Varint(v), 0, f) == Parsed(f.(service := Signed32(v)))
    ensures ParseFrom([32] + Varint(v), 0, f) == Parsed(f.(method_ := Signed32(v)))
  {
    hide ParseFrom, Varint, Signed32;
    ScalarTagByte(1, v, f);
    ScalarTagByte(2, v, f);
    ScalarTagByte(3, v, f);
    ScalarTagByte(4, v, f);
  }

  lemma ChunkAfterTag(t: u64, data: seq<byte>)
    requires |Varint(t) + Varint(|data|) + data| < WORD
    ensures var buf := Varint(t) + Varint(|data|) + data;
      && ReadVarint(buf, 0) == Some(Read(t, |Varint(t)|))
      && ReadChunk(buf, |Varint(t)|) == Chunk(data, |buf|)
  {
    hide ReadFrom, Varint, ReadChunk;
    var buf := Varint(t) + Varint(|data|) + data;
    assert buf == Varint(t) + (Varint(|data|) + data) && buf == buf + [];
    TagRead(t, Varint(|data|) + data);
    ChunkRead(Varint(t), data, []);
  }

  /**
   Length-delimited bytes after tag 66 are the payload, and after tag 42 a header, which joins those there are
   unless there are sixteen; a header that cannot be read joins with what was read of it.
   */
  lemma BytesTags(t: u64, data: seq<byte>, f: Frame)
    requires t % 8 == 2 && |Varint(t) + Varint(|data|) + data| < WORD
    ensures var read := ParseFrom(Varint(t) + Varint(|data|) + data, 0, f);
      var field := (t / 8) % 0x1_0000_0000;
      && (field == 8 ==> read == Parsed(f.(payload := data)))
      && (field == 5 && |f.headers| >= 16 ==> read == Parsed(f))
      && (field == 5 && |f.headers| < 16 && ParseHeader(data).HeaderRead? ==>
            read == Parsed(f.(headers := f.headers + [ParseHeader(data).header])))
  {
    hide ReadFrom, Varint, ReadVarint, ReadChunk, ParseHeader;
    ChunkAfterTag(t, data);
  }

  lemma LiteralBytes(data: seq<byte>, f: Frame)
    requires |[66] + Varint(|data|) + data| < WORD
    ensures ParseFrom([66] + Varint(|data|) + data, 0, f) == Parsed(f.(payload := data))
    ensures |f.headers| < 16 && ParseHeader(data).HeaderRead? ==>
              ParseFrom([42] + Varint(|data|) + data, 0, f) == Parsed(f.(headers := f.headers + [ParseHeader(data).header]))
  {
    hide ParseFrom, ParseHeader, Varint;
    TagByte(66);
    TagByte(42);
    BytesTags(66, data, f);
    BytesTags(42, data, f);
  }

  /** text is data up to its first zero byte, or its first limit bytes. */
  ghost predicate CutTo(text: seq<byte>, data: seq<byte>, limit: nat) {
    && |text| <= limit && text <= data && 0 !in text
    && (|text| == limit || |text| == |data| || data[|text|] == 0)
  }

  lemma {:induction false} CStringIs(s: seq<byte>)
    ensures CString(s) <= s && 0 !in CString(s) && (CString(s) == s || s[|CString(s)|] == 0)
  {
    if s != [] && s[0] != 0 {
      CStringIs(s[1..]);
      assert CString(s) == [s[0]] + CString(s[1..]) && s == [s[0]] + s[1..];
    }
  }

  lemma CutIs(data: seq<byte>, limit: nat)
    ensures CutTo(CString(FeishuFrame.Take(data, limit)), data, limit)
  {
    CStringIs(FeishuFrame.Take(data, limit));
  }

  /** Inside a header, tag 10 is the key, cut to 31 bytes, and tag 18 the value, cut to 127. */
  lemma HeaderTags(t: u64, data: seq<byte>, h: Header)
    requires t % 8 == 2 && |Varint(t) + Varint(|data|) + data| < WORD
    ensures var read := HeaderFrom(Varint(t) + Varint(|data|) + data, 0, h);
      var field := (t / 8) % 0x1_0000_0000;
      && read.HeaderRead? && read.ok
      && (field == 1 ==> CutTo(read.header.key, data, 31) && read.header.value == h.value)
      && (field == 2 ==> CutTo(read.header.value, data, 127) && read.header.key == h.key)
      && (field != 1 && field != 2 ==> read.header == h)
  {
    hide ReadFrom, Varint, ReadVarint, ReadChunk, CutTo;
    ChunkAfterTag(t, data);
    CutIs(data, 31);
    CutIs(data, 127);
  }

  lemma LiteralHeaderTags(data: seq<byte>, h: Header)
    requires |[10] + Varint(|data|) + data| < WORD
    ensures var read := HeaderFrom([10] + Varint(|data|) + data, 0, h);
      read.HeaderRead? && read.ok && CutTo(read.header.key, data, 31) && read.header.value == h.value
    ensures var read := HeaderFrom([18] + Varint(|data|) + data, 0, h);
      read.HeaderRead? && read.ok && CutTo(read.header.value, data, 127) && read.header.key == h.key
  {
    hide HeaderFrom, CutTo, Varint;
    TagByte(10);
    TagByte(18);
    HeaderTags(10, data, h);
    HeaderTags(18, data, h);
  }

  /** Service 1 is read from the bytes 24 1, and method 1 from 32 1. */
  lemma ServiceAndMethod()
    ensures Parse([24, 1]) == Parsed(Frame(0, 0, 1, 0, [], []))
    ensures Parse([32, 1]) == Parsed(Frame(0, 0, 0, 1, [], []))
  {
    hide ParseFrom;
    LiteralTags(1, NO_FRAME);
    assert [24] + Varint(1) == [24, 1] && [32] + Varint(1) == [32, 1];
  }

  // ---- What is rejected ----

  lemma Unterminated(buf: seq<byte>, pos: nat)
    requires pos <= |buf| && forall i | pos <= i < |buf| :: buf[i] >= 128
    ensures ReadVarint(buf, pos) == None
  {
    hide ReadFrom;
    ReadVarintIff(buf, pos);
  }

  /**
   A frame is malformed when its tag does not end, when its wire type is none of 0, 1, 2 and 5, and when the
   value its wire type announces is cut short.
   */
  lemma Rejected(t: u64, rest: seq<byte>, f: Frame)
    requires |Varint(t) + rest| < WORD
    ensures rest != [] && (forall i | 0 <= i < |rest| :: rest[i] >= 128) ==> ParseFrom(rest, 0, f) == Malformed
    ensures t % 8 in {3, 4, 6, 7} ==> ParseFrom(Varint(t) + rest, 0, f) == Malformed
    ensures t % 8 in {0, 2} && (forall i | 0 <= i < |rest| :: rest[i] >= 128) ==>
              ParseFrom(Varint(t) + rest, 0, f) == Malformed
    ensures (t % 8 == 1 && |rest| < 8) || (t % 8 == 5 && |rest| < 4) ==>
              ParseFrom(Varint(t) + rest, 0, f) == Malformed
  {
    hide ReadFrom, Varint, ReadVarint;
    var buf := Varint(t) + rest;
    TagRead(t, rest);
    if forall i | 0 <= i < |rest| :: rest[i] >= 128 {
      Unterminated(rest, 0);
      forall i | |Varint(t)| <= i < |buf| ensures buf[i] >= 128 {
        assert buf[i] == rest[i - |Varint(t)|];
      }
      Unterminated(buf, |Varint(t)|);
    }
  }

  /** So is one whose bytes are fewer than their length says, as long as the length does not wrap. */
  lemma ShortBytes(t: u64, size: u64, data: seq<byte>, f: Frame)
    requires t % 8 == 2 && |Varint(t) + Varint(size) + data| < WORD
    requires |data| < size % 0x1_0000_0000 && |Varint(t) + Varint(size)| + size % 0x1_0000_0000 < 0x1_0000_0000
    ensures ParseFrom(Varint(t) + Varint(size) + data, 0, f) == Malformed
  {
    hide ReadFrom, Varint, ReadVarint;
    var buf := Varint(t) + Varint(size) + data;
    assert buf == Varint(t) + (Varint(size) + data);
    TagRead(t, Varint(size) + data);
    VarintRoundTrip(Varint(t), size, data);
    assert ReadChunk(buf, |Varint(t)|) == ChunkBad && SkipField(buf, |Varint(t)|, 2) == Bad;
  }

  /** A header that breaks off after some fields keeps what those fields set. */
  lemma HeaderCut(a: seq<byte>, bad: seq<byte>, h: Header)
    requires |a| + |bad| < WORD && Complete(HeaderFrom(a, 0, h))
    requires bad != [] && forall i | 0 <= i < |bad| :: bad[i] >= 128
    ensures HeaderFrom(a + bad, 0, h) == HeaderRead(false, HeaderFrom(a, 0, h).header)
  {
    hide ReadVarint, SkipField, ReadChunk;
    HeaderPrefix(a, bad, 0, h);
    forall i | |a| <= i < |a + bad| ensures (a + bad)[i] >= 128 {
      assert (a + bad)[i] == bad[i - |a|];
    }
    Unterminated(a + bad, |a|);
  }

  // ---- The bytes that are sent ----

  /** A 32-bit number as a 64-bit one in two's complement. */
  ghost function Unsigned64(i: int): nat
    requires -0x8000_0000 <= i < 0x8000_0000
  {
    if i < 0 then i + 0x1_0000_0000_0000_0000 else i
  }

  /** Bytes after a tag and their length. */
  ghost function Delimited(tag: byte, data: seq<byte>): seq<byte> { [tag] + Varint(|data|) + data }

  /** Each header in turn: its key and its value. */
  ghost function HeaderBytes(hs: seq<Header>): seq<byte> {
    if hs == [] then []
    else Delimited(42, Delimited(10, hs[0].key) + Delimited(18, hs[0].value)) + HeaderBytes(hs[1..])
  }

  lemma BytesIs(field: nat, data: seq<byte>)
    requires field < 16
    ensures Bytes(field, data) == Delimited(field * 8 + 2, data)
  {
  }

  lemma {:induction false} HeaderBytesIs(hs: seq<Header>)
    ensures EncodeHeaders(hs) == HeaderBytes(hs)
  {
    hide Varint;
    if hs != [] {
      HeaderBytesIs(hs[1..]);
      BytesIs(1, hs[0].key);
      BytesIs(2, hs[0].value);
      BytesIs(5, HeaderBody(hs[0]));
    }
  }

  /** A frame is sent as its four numbers, its headers and, unless it is empty, its payload, in that order. */
  lemma SentBytes(f: Frame, payload: seq<byte>)
    requires Representable(f)
    ensures Encode(f, payload)
         == [8] + Varint(f.seqId) + [16] + Varint(f.logId) + [24] + Varint(Unsigned64(f.service))
            + [32] + Varint(Unsigned64(f.method_)) + HeaderBytes(f.headers)
            + (if payload == [] then [] else Delimited(66, payload))
  {
    hide EncodeHeaders, HeaderBytes, Bytes, Delimited, EncodeScalars, Varint;
    HeaderBytesIs(f.headers);
    BytesIs(8, payload);
    ScalarsAre(f);
    assert Unsigned64(f.service) == (if f.service < 0 then f.service + 0x1_0000_0000_0000_0000 else f.service);
    ThreeParts(EncodeScalars(f), EncodeHeaders(f.headers), EncodePayload(payload));
  }
}
