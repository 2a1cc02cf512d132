/**
 The Feishu frame writer and the two codec loops over buffers
 (components/cap_im_platform/src/cap_im_feishu.c, lines 678-954).
 Main result: RoundTrip. SendFrame succeeds exactly when the encoding fits its buffer, and then
 holds that encoding; the reading loops compute FeishuFrame.Parse.
 */
module FeishuCodec {
  import opened Common
  import opened FeishuVarint
  import opened FeishuFrame

  const FRAME_BUFFER := 1024
  const HEADER_BUFFER := 256

  // ---- The encoding ----

  /** An int32_t passed where a uint64_t is expected: sign extension. */
  function ToU64(i: int): nat
    requires -WORD / 2 <= i < WORD / 2
  {
    if i < 0 then U64 + i else i
  }

  lemma SignRoundTrip(i: int)
    requires -WORD / 2 <= i < WORD / 2
    ensures ToU64(i) < U64 && ToInt32(ToU64(i)) == i
  {
  }

  function Scalar(field: nat, v: nat): seq<byte> { Varint(field * 8) + Varint(v) }

  function Bytes(field: nat, data: seq<byte>): seq<byte> { Varint(field * 8 + 2) + Varint(|data|) + data }

  function HeaderBody(h: Header): seq<byte> { Bytes(1, h.key) + Bytes(2, h.value) }

  function EncodeHeaders(hs: seq<Header>): seq<byte> {
    if hs == [] then [] else Bytes(5, HeaderBody(hs[0])) + EncodeHeaders(hs[1..])
  }

  function EncodePayload(payload: seq<byte>): seq<byte> {
    if payload == [] then [] else Bytes(8, payload)
  }

  function EncodeScalars(f: Frame): seq<byte>
    requires Representable(f)
  {
    Scalar(1, f.seqId) + (Scalar(2, f.logId) + (Scalar(3, ToU64(f.service)) + Scalar(4, ToU64(f.method_))))
  }

  /** The wire form of a frame with the given payload; a frame struct's own payload is not sent. */
  function Encode(f: Frame, payload: seq<byte>): seq<byte>
    requires Representable(f)
  {
    EncodeScalars(f) + (EncodeHeaders(f.headers) + EncodePayload(payload))
  }

  /** What the C struct can hold: the integer widths, and NUL-terminated strings in their arrays. */
  ghost predicate HeaderFits(h: Header) {
    |h.key| <= KEY_MAX && |h.value| <= VALUE_MAX && 0 !in h.key && 0 !in h.value
  }

  predicate Representable(f: Frame) {
    f.seqId < U64 && f.logId < U64 && -WORD / 2 <= f.service < WORD / 2 && -WORD / 2 <= f.method_ < WORD / 2
  }

  ghost predicate FrameFits(f: Frame) {
    Representable(f) && |f.headers| <= MAX_HEADERS && forall h | h in f.headers :: HeaderFits(h)
  }

  // ---- Round trip ----

  lemma {:induction false} CStringWhole(s: seq<byte>)
    requires 0 !in s
    ensures CString(s) == s
  {
    if s != [] {
      assert 0 !in s[1..];
      CStringWhole(s[1..]);
      assert s == [s[0]] + s[1..];
    }
  }

  lemma ScalarParses(field: nat, v: u64, f: Frame)
    requires 1 <= field <= 4
    ensures |Scalar(field, v)| < WORD && ParseFrom(Scalar(field, v), 0, f) == Parsed(SetScalar(f, field, v))
  {
    var tag := Varint(field * 8);
    TagOf([], field, 0, Varint(v));
    assert Scalar(field, v) == [] + tag + Varint(v);
    VarintRoundTrip(tag, v, []);
    assert Scalar(field, v) == tag + Varint(v) + [];
    VarintRoundTrip([], field * 8, []);
  }

  lemma Middle(pre: seq<byte>, lead: seq<byte>, data: seq<byte>, post: seq<byte>)
    ensures pre + lead + data + post == pre + lead + (data + post)
    ensures (pre + lead + data + post)[|pre| + |lead|..|pre| + |lead| + |data|] == data
  {
  }

  /** A length and its bytes in the middle of a buffer are read back as those bytes. */
  lemma ChunkRead(pre: seq<byte>, data: seq<byte>, post: seq<byte>)
    requires |pre + Varint(|data|) + data + post| < WORD
    ensures ReadChunk(pre + Varint(|data|) + data + post, |pre|)
         == Chunk(data, |pre| + |Varint(|data|)| + |data|)
  {
    hide ReadFrom, Varint, ReadVarint;
    Middle(pre, Varint(|data|), data, post);
    VarintRoundTrip(pre, |data|, data + post);
  }

  /** A length-delimited field in the middle of a buffer is read back as its bytes. */
  lemma BytesRead(pre: seq<byte>, field: nat, data: seq<byte>, post: seq<byte>)
    requires field < WORD && |pre + Bytes(field, data) + post| < WORD
    ensures var buf := pre + Bytes(field, data) + post;
      var tag := ReadVarint(buf, |pre|);
      && tag.Some? && (tag.value.value / 8) % WORD == field && tag.value.value % 8 == 2
      && ReadChunk(buf, tag.value.pos) == Chunk(data, |pre| + |Bytes(field, data)|)
  {
    hide ReadFrom;
    var tag := Varint(field * 8 + 2);
    var rest := Varint(|data|) + data + post;
    assert pre + Bytes(field, data) + post == pre + tag + rest;
    assert pre + Bytes(field, data) + post == (pre + tag) + Varint(|data|) + data + post;
    TagOf(pre, field, 2, rest);
    ChunkRead(pre + tag, data, post);
  }

  lemma HeaderParses(h: Header)
    requires HeaderFits(h)
    ensures |HeaderBody(h)| < WORD && ParseHeader(HeaderBody(h)) == HeaderRead(true, h)
  {
    hide ReadFrom, ReadVarint, ReadChunk, Varint;
    HeaderBodyLength(h);
    var body := HeaderBody(h);
    var key, value := Bytes(1, h.key), Bytes(2, h.value);
    assert body == [] + key + value && body == key + value + [];
    BytesRead([], 1, h.key, value);
    BytesRead(key, 2, h.value, []);
    CStringWhole(h.key);
    CStringWhole(h.value);
    var h1 := NO_HEADER.(key := h.key);
    HeaderField(body, 0, NO_HEADER, 1, h.key, |key|);
    HeaderField(body, |key|, h1, 2, h.value, |body|);
  }

  /** One turn of the header loop on a length-delimited field. */
  lemma HeaderField(buf: Buffer, pos: nat, h: Header, field: nat, data: seq<byte>, next: nat)
    requires pos < |buf| && (field == 1 || field == 2) && ReadVarint(buf, pos).Some?
    requires var tag := ReadVarint(buf, pos).value;
      (tag.value / 8) % WORD == field && tag.value % 8 == 2 && ReadChunk(buf, tag.pos) == Chunk(data, next)
    ensures next <= |buf|
    ensures HeaderFrom(buf, pos, h)
         == HeaderFrom(buf, next, SetPart(h, field, data))
  {
  }

  lemma VarintShort(v: nat)
    requires v < 16384
    ensures |Varint(v)| <= 2
  {
  }

  /** A header always fits the small buffer it is written to first. */
  lemma HeaderBodyLength(h: Header)
    requires |h.key| <= KEY_MAX && |h.value| <= VALUE_MAX
    ensures |HeaderBody(h)| <= 162 < HEADER_BUFFER
  {
  }

  lemma HeaderFieldLength(h: Header)
    requires |h.key| <= KEY_MAX && |h.value| <= VALUE_MAX
    ensures |Bytes(5, HeaderBody(h))| < WORD
  {
    HeaderBodyLength(h);
    hide HeaderBody;
    VarintShort(|HeaderBody(h)|);
  }

  lemma HeaderFieldParses(h: Header, f: Frame)
    requires HeaderFits(h) && |f.headers| < MAX_HEADERS
    ensures |Bytes(5, HeaderBody(h))| < WORD
    ensures ParseFrom(Bytes(5, HeaderBody(h)), 0, f) == Parsed(f.(headers := f.headers + [h]))
  {
    hide ReadFrom, ReadChunk, ReadVarint, HeaderFrom, HeaderBody, SkipField, Varint;
    HeaderFieldLength(h);
    HeaderParses(h);
    var bytes := Bytes(5, HeaderBody(h));
    assert bytes == [] + bytes + [];
    BytesRead([], 5, HeaderBody(h), []);
    assert FieldAt(bytes, 0, f) == Next(f.(headers := f.headers + [h]), |bytes|);
  }

  lemma PayloadParses(payload: seq<byte>, f: Frame)
    requires |EncodePayload(payload)| < WORD && f.payload == []
    ensures ParseFrom(EncodePayload(payload), 0, f) == Parsed(f.(payload := payload))
  {
    hide ReadFrom, Varint, ReadChunk, ReadVarint, Bytes;
    if payload != [] {
      var bytes := Bytes(8, payload);
      assert bytes == [] + bytes + [];
      BytesRead([], 8, payload, []);
      assert FieldAt(bytes, 0, f) == Next(f.(payload := payload), |bytes|);
    }
  }

  lemma Then(a: seq<byte>, b: seq<byte>, f: Frame, g: Frame, h: Frame)
    requires |a| + |b| < WORD
    ensures ParseFrom(a, 0, f) == Parsed(g) && ParseFrom(b, 0, g) == Parsed(h) ==> ParseFrom(a + b, 0, f) == Parsed(h)
  {
    hide ParseFrom, FieldAt;
    ParseConcat(a, b, f);
  }

  lemma {:induction false} HeadersParse(hs: seq<Header>, f: Frame)
    requires (forall h | h in hs :: HeaderFits(h)) && |f.headers| + |hs| <= MAX_HEADERS
    requires |EncodeHeaders(hs)| < WORD
    ensures ParseFrom(EncodeHeaders(hs), 0, f) == Parsed(f.(headers := f.headers + hs))
  {
    hide FieldAt, Bytes, HeaderBody;
    if hs == [] {
      assert f.headers + hs == f.headers;
    } else {
      var g := f.(headers := f.headers + [hs[0]]);
      HeaderFieldParses(hs[0], f);
      HeadersParse(hs[1..], g);
      assert g.headers + hs[1..] == f.headers + hs;
      Then(Bytes(5, HeaderBody(hs[0])), EncodeHeaders(hs[1..]), f, g, f.(headers := f.headers + hs));
    }
  }

  lemma ScalarsParse(f: Frame)
    requires Representable(f) && |EncodeScalars(f)| < WORD
    ensures ParseFrom(EncodeScalars(f), 0, NO_FRAME) == Parsed(f.(headers := [], payload := []))
  {
    SignRoundTrip(f.service);
    SignRoundTrip(f.method_);
    var f1 := NO_FRAME.(seqId := f.seqId);
    var f2 := f1.(logId := f.logId);
    var f3 := f2.(service := f.service);
    var f4 := f3.(method_ := f.method_);
    ScalarParses(1, f.seqId, NO_FRAME);
    ScalarParses(2, f.logId, f1);
    ScalarParses(3, ToU64(f.service), f2);
    ScalarParses(4, ToU64(f.method_), f3);
    var s3, s4 := Scalar(3, ToU64(f.service)), Scalar(4, ToU64(f.method_));
    Then(s3, s4, f2, f3, f4);
    Then(Scalar(2, f.logId), s3 + s4, f1, f2, f4);
    Then(Scalar(1, f.seqId), Scalar(2, f.logId) + (s3 + s4), NO_FRAME, f1, f4);
  }

  /** Parsing the encoding of any frame the struct can hold, with any payload, gives the frame back. */
  lemma RoundTrip(f: Frame, payload: seq<byte>)
    requires FrameFits(f) && |Encode(f, payload)| < WORD
    ensures Parse(Encode(f, payload)) == Parsed(f.(payload := payload))
  {
    var g := f.(headers := [], payload := []);
    var h := g.(headers := f.headers);
    ScalarsParse(f);
    HeadersParse(f.headers, g);
    assert g.headers + f.headers == f.headers;
    PayloadParses(payload, h);
    var headers, tail := EncodeHeaders(f.headers), EncodePayload(payload);
    Then(headers, tail, g, h, f.(payload := payload));
    Then(EncodeScalars(f), headers + tail, NO_FRAME, g, f.(payload := payload));
  }

  // ---- The writer ----

  /** A writer's promise: it succeeds exactly when the chunk fits, and then the chunk follows what was there. */
  ghost predicate Appended(before: seq<byte>, chunk: seq<byte>, capacity: nat, ok: bool, after: seq<byte>) {
    && (ok <==> |before| + |chunk| <= capacity)
    && (ok ==> after == before + chunk)
  }

  method WriteVarint(buf: array<byte>, pos: nat, value: u64) returns (ok: bool, end: nat)
    requires pos <= buf.Length
    modifies buf
    ensures end <= buf.Length && Appended(old(buf[..pos]), Varint(value), buf.Length, ok, buf[..end])
  {
    var v: nat := value;
    end := pos;
    ghost var before := buf[..pos];
    ghost var more := true;
    while true
      invariant pos <= end <= buf.Length
      invariant buf[..end] + Varint(v) == before + Varint(value)
      decreases v
    {
      if end >= buf.Length {
        assert |buf[..end] + Varint(v)| == |before + Varint(value)|;
        return false, end;
      }
      var b: byte := v % 128;
      var rest := v / 128;
      if rest != 0 {
        b := b + 128;
      }
      ghost var written := buf[..end];
      buf[end] := b;
      assert buf[..end + 1] == written + [b];
      assert Varint(v) == [b] + if rest != 0 then Varint(rest) else [];
      end := end + 1;
      if rest == 0 {
        assert buf[..end] == before + Varint(value);
        return true, end;
      }
      assert buf[..end] + Varint(rest) == written + Varint(v);
      v := rest;
    }
  }

  /**
   How a length-delimited write ends. WriteWraps: the position plus the length wraps 32 bits, so that the
   code's test does not stop it; the model does, and claims nothing of what follows.
   */
  datatype Write = Wrote | Full | WriteWraps

  /** Tag and length, the part of a length-delimited field before its data. */
  function Lead(field: nat, length: nat): seq<byte> { Varint(field * 8 + 2) + Varint(length) }

  /** Adding the length to where the data would start wraps a 32-bit size. */
  predicate DataWraps(before: nat, field: nat, length: nat, capacity: nat) {
    before + |Lead(field, length)| <= capacity && before + |Lead(field, length)| + length >= WORD
  }

  method WriteBytes(buf: array<byte>, pos: nat, field: nat, data: seq<byte>) returns (w: Write, end: nat)
    requires pos <= buf.Length < WORD && field < WORD && |data| < WORD
    modifies buf
    ensures end <= buf.Length && Appended(old(buf[..pos]), Bytes(field, data), buf.Length, w == Wrote, buf[..end])
    ensures w == WriteWraps <==> DataWraps(pos, field, |data|, buf.Length)
  {
    hide Varint;
    ghost var before := buf[..pos];
    var ok;
    ok, end := WriteVarint(buf, pos, field * 8 + 2);
    if !ok {
      return Full, end;
    }
    ok, end := WriteVarint(buf, end, |data|);
    if !ok {
      return Full, end;
    }
    if end + |data| >= WORD {
      return WriteWraps, end;
    }
    if end + |data| > buf.Length {
      return Full, end;
    }
    ghost var written := buf[..end];
    forall i | 0 <= i < |data| {
      buf[end + i] := data[i];
    }
    assert buf[..end] == written;
    assert buf[..end + |data|] == written + data;
    end := end + |data|;
    assert before + Bytes(field, data) == before + Varint(field * 8 + 2) + Varint(|data|) + data;
    return Wrote, end;
  }

  method WriteHeader(buf: array<byte>, pos: nat, h: Header) returns (ok: bool, end: nat)
    requires pos <= buf.Length <= FRAME_BUFFER && |h.key| <= KEY_MAX && |h.value| <= VALUE_MAX
    modifies buf
    ensures end <= buf.Length && Appended(old(buf[..pos]), Bytes(5, HeaderBody(h)), buf.Length, ok, buf[..end])
  {
    HeaderBodyLength(h);
    hide Varint;
    var tmp := new byte[HEADER_BUFFER];
    var w, n := WriteBytes(tmp, 0, 1, h.key);
    if w == Wrote {
      w, n := WriteBytes(tmp, n, 2, h.value);
    }
    assert w == Wrote && tmp[..n] == HeaderBody(h);
    w, end := WriteBytes(buf, pos, 5, tmp[..n]);
    ok := w == Wrote;
  }

  method WriteScalar(buf: array<byte>, pos: nat, field: nat, v: u64) returns (ok: bool, end: nat)
    requires pos <= buf.Length && field < WORD
    modifies buf
    ensures end <= buf.Length && Appended(old(buf[..pos]), Scalar(field, v), buf.Length, ok, buf[..end])
  {
    ghost var before := buf[..pos];
    ok, end := WriteVarint(buf, pos, field * 8);
    if ok {
      ok, end := WriteVarint(buf, end, v);
      assert before + Scalar(field, v) == before + Varint(field * 8) + Varint(v);
    }
  }

  method WriteScalars(buf: array<byte>, f: Frame) returns (ok: bool, end: nat)
    requires Representable(f)
    modifies buf
    ensures end <= buf.Length && Appended([], EncodeScalars(f), buf.Length, ok, buf[..end])
  {
    hide Varint;
    SignRoundTrip(f.service);
    SignRoundTrip(f.method_);
    ok, end := WriteScalar(buf, 0, 1, f.seqId);
    if !ok {
      return;
    }
    ok, end := WriteScalar(buf, end, 2, f.logId);
    if !ok {
      return;
    }
    ok, end := WriteScalar(buf, end, 3, ToU64(f.service));
    if !ok {
      return;
    }
    ok, end := WriteScalar(buf, end, 4, ToU64(f.method_));
    if ok {
      assert buf[..end] == EncodeScalars(f);
    }
  }

  /** The next header's bytes are the next part of what is left to write. */
  lemma HeadersFrom(hs: seq<Header>, i: nat)
    requires i < |hs|
    ensures EncodeHeaders(hs[i..]) == Bytes(5, HeaderBody(hs[i])) + EncodeHeaders(hs[i + 1..])
  {
    assert hs[i..][1..] == hs[i + 1..];
  }

  lemma ThreeParts(a: seq<byte>, b: seq<byte>, c: seq<byte>)
    ensures a + (b + c) == (a + b) + c && |a + (b + c)| == |a| + |b| + |c|
  {
  }

  method WriteHeaders(buf: array<byte>, pos: nat, hs: seq<Header>) returns (ok: bool, end: nat)
    requires pos <= buf.Length <= FRAME_BUFFER
    requires forall h | h in hs :: |h.key| <= KEY_MAX && |h.value| <= VALUE_MAX
    modifies buf
    ensures end <= buf.Length && Appended(old(buf[..pos]), EncodeHeaders(hs), buf.Length, ok, buf[..end])
  {
    assert hs[0..] == hs && hs[|hs|..] == [] && EncodeHeaders([]) == [];
    hide EncodeHeaders, Bytes, HeaderBody;
    ghost var goal := buf[..pos] + EncodeHeaders(hs);
    ok, end := true, pos;
    for i := 0 to |hs|
      invariant ok && end <= buf.Length && goal == buf[..end] + EncodeHeaders(hs[i..])
    {
      HeadersFrom(hs, i);
      ghost var chunk, rest := Bytes(5, HeaderBody(hs[i])), EncodeHeaders(hs[i + 1..]);
      ThreeParts(buf[..end], chunk, rest);
      ok, end := WriteHeader(buf, end, hs[i]);
      if !ok {
        return;
      }
    }
    assert goal == buf[..end];
  }

  /** Everything after the scalars. */
  method WriteTail(buf: array<byte>, pos: nat, hs: seq<Header>, payload: seq<byte>) returns (w: Write, end: nat)
    requires pos <= buf.Length <= FRAME_BUFFER && |payload| < WORD
    requires forall h | h in hs :: |h.key| <= KEY_MAX && |h.value| <= VALUE_MAX
    modifies buf
    ensures end <= buf.Length
    ensures Appended(old(buf[..pos]), EncodeHeaders(hs) + EncodePayload(payload), buf.Length, w == Wrote, buf[..end])
    ensures w == WriteWraps <==> DataWraps(pos + |EncodeHeaders(hs)|, 8, |payload|, buf.Length)
  {
    hide Varint, EncodeHeaders;
    ghost var before := buf[..pos];
    var ok;
    ok, end := WriteHeaders(buf, pos, hs);
    w := if ok then Wrote else Full;
    if ok && payload != [] {
      w, end := WriteBytes(buf, end, 8, payload);
    }
    assert before + EncodeHeaders(hs) + EncodePayload(payload) == before + (EncodeHeaders(hs) + EncodePayload(payload));
  }

  /** The four numbers of a frame, each after its tag. */
  lemma ScalarsAre(f: Frame)
    requires Representable(f)
    ensures EncodeScalars(f)
         == [8] + Varint(f.seqId) + [16] + Varint(f.logId)
            + [24] + Varint(if f.service < 0 then f.service + 0x1_0000_0000_0000_0000 else f.service)
            + [32] + Varint(if f.method_ < 0 then f.method_ + 0x1_0000_0000_0000_0000 else f.method_)
  {
    assert Varint(8) == [8] && Varint(16) == [16] && Varint(24) == [24] && Varint(32) == [32];
  }

  /** The encoding part of cap_im_feishu_ws_send_frame. */
  method SendFrame(f: Frame, payload: seq<byte>) returns (w: Write, bytes: seq<byte>)
    requires Representable(f) && |payload| < WORD
    requires forall h | h in f.headers :: |h.key| <= KEY_MAX && |h.value| <= VALUE_MAX
    ensures w == Wrote <==> |Encode(f, payload)| <= 1024
    ensures w == Wrote ==> bytes == Encode(f, payload)
    ensures w == Wrote ==>
              bytes == [8] + Varint(f.seqId) + [16] + Varint(f.logId)
                     + [24] + Varint(if f.service < 0 then f.service + 0x1_0000_0000_0000_0000 else f.service)
                     + [32] + Varint(if f.method_ < 0 then f.method_ + 0x1_0000_0000_0000_0000 else f.method_)
                     + (EncodeHeaders(f.headers) + EncodePayload(payload))
    ensures w == WriteWraps <==>
              DataWraps(|EncodeScalars(f)| + |EncodeHeaders(f.headers)|, 8, |payload|, FRAME_BUFFER)
  {
    hide Varint, EncodeHeaders, EncodeScalars;
    ScalarsAre(f);
    var buf := new byte[FRAME_BUFFER];
    bytes := [];
    var ok, end := WriteScalars(buf, f);
    if !ok {
      return Full, bytes;
    }
    w, end := WriteTail(buf, end, f.headers, payload);
    if w == Wrote {
      bytes := buf[..end];
    }
  }

  // ---- The reading loops ----

  method ReadVarintLoop(buf: Buffer, start: nat) returns (ok: bool, pos: nat, value: nat)
    requires start <= |buf|
    ensures ReadVarint(buf, start) == if ok then Some(Read(value, pos)) else None
  {
    value, pos := 0, start;
    var shift := 0;
    assert Pow2(0) == 1;
    while pos < |buf| && shift <= 63
      invariant start <= pos <= |buf| && shift >= 0 && value < Pow2(shift)
      invariant ReadVarint(buf, start) == ReadFrom(buf, pos, shift, value)
      decreases |buf| - pos
    {
      hide Pow2, BitOr;
      var b := buf[pos];
      pos := pos + 1;
      OrIsSum(value, b % 128, shift);
      GroupFits(b % 128, shift, value);
      value := BitOr(value, ((b % 128) * Pow2(shift)) % U64);
      if b < 128 {
        return true, pos, value;
      }
      shift := shift + 7;
    }
    ok := false;
  }

  method SkipFieldAt(buf: Buffer, start: nat, wire: nat) returns (m: Move)
    requires start <= |buf|
    ensures m == SkipField(buf, start, wire)
  {
    match wire
    case 0 =>
      var ok, pos, _ := ReadVarintLoop(buf, start);
      m := if ok then To(pos) else Bad;
    case 1 => m := Advance(|buf|, start, 8);
    case 2 =>
      var ok, pos, size := ReadVarintLoop(buf, start);
      m := if ok then Advance(|buf|, pos, size) else Bad;
    case 5 => m := Advance(|buf|, start, 4);
    case _ => m := Bad;
  }

  method ReadChunkAt(buf: Buffer, start: nat) returns (c: Chunk)
    requires start <= |buf|
    ensures c == ReadChunk(buf, start)
  {
    var ok, pos, size := ReadVarintLoop(buf, start);
    if !ok {
      return ChunkBad;
    }
    match Advance(|buf|, pos, size)
    case Bad => c := ChunkBad;
    case Wraps => c := ChunkWraps;
    case To(next) => c := Chunk(buf[pos..next], next);
  }

  method ParseHeaderLoop(buf: Buffer) returns (r: HeaderRead)
    ensures r == ParseHeader(buf)
  {
    var pos, h := 0, NO_HEADER;
    while pos < |buf|
      invariant pos <= |buf| && ParseHeader(buf) == HeaderFrom(buf, pos, h)
      decreases |buf| - pos
    {
      var ok, at, tag := ReadVarintLoop(buf, pos);
      if !ok {
        return HeaderRead(false, h);
      }
      var field, wire := (tag / 8) % WORD, tag % 8;
      if wire != 2 {
        var m := SkipFieldAt(buf, at, wire);
        if m == Bad {
          return HeaderRead(false, h);
        }
        if m == Wraps {
          return HeaderWraps;
        }
        pos := m.pos;
        continue;
      }
      var c := ReadChunkAt(buf, at);
      if c == ChunkBad {
        return HeaderRead(false, h);
      }
      if c == ChunkWraps {
        return HeaderWraps;
      }
      h := SetPart(h, field, c.data);
      pos := c.pos;
    }
    return HeaderRead(true, h);
  }

  /** cap_im_feishu_pb_parse_frame. */
  method ParseFrameLoop(buf: Buffer) returns (o: Outcome)
    ensures o == Parse(buf)
  {
    var pos, frame := 0, NO_FRAME;
    while pos < |buf|
      invariant pos <= |buf| && Parse(buf) == ParseFrom(buf, pos, frame)
      decreases |buf| - pos
    {
      var ok, at, tag := ReadVarintLoop(buf, pos);
      if !ok {
        return Malformed;
      }
      var field, wire := (tag / 8) % WORD, tag % 8;
      if 1 <= field <= 4 && wire == 0 {
        var good, next, v := ReadVarintLoop(buf, at);
        if !good {
          return Malformed;
        }
        frame := SetScalar(frame, field, v);
        pos := next;
      } else if (field == 5 || field == 8) && wire == 2 {
        var c := ReadChunkAt(buf, at);
        if c == ChunkBad {
          return Malformed;
        }
        if c == ChunkWraps {
          return Unmodelled;
        }
        if field == 8 {
          frame := frame.(payload := c.data);
        } else if |frame.headers| < MAX_HEADERS {
          var r := ParseHeaderLoop(c.data);
          if r == HeaderWraps {
            return Unmodelled;
          }
          frame := frame.(headers := frame.headers + [r.header]);
        }
        pos := c.pos;
      } else {
        var m := SkipFieldAt(buf, at, wire);
        if m == Bad {
          return Malformed;
        }
        if m == Wraps {
          return Unmodelled;
        }
        pos := m.pos;
      }
    }
    return Parsed(frame);
  }
}
