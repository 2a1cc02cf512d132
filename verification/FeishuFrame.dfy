/**
 The Feishu frame reader (components/cap_im_platform/src/cap_im_feishu.c, lines 697-834; Protocol
 Buffers Encoding guide, sections "Message Structure" and "Last One Wins").

 size_t is 32 bits wide: declared lengths lose their high bits, and an offset plus a declared
 length can wrap. The code does not guard against the latter; the model stops there with its own
 outcome, Unmodelled, and says nothing about what follows.
 Main results: ParseConcat, SpliceUnknown, LastOneWins.
 */
module FeishuFrame {
  import opened Common
  import opened FeishuVarint

  const MAX_HEADERS := 16
  const KEY_MAX := 31      // key[32] less its terminator
  const VALUE_MAX := 127   // value[128] less its terminator

  /** A byte buffer: its length is a size_t. */
  type Buffer = s: seq<byte> | |s| < WORD witness []

  /** key and value as the C strings they are read as. */
  datatype Header = Header(key: seq<byte>, value: seq<byte>)

  datatype Frame = Frame(seqId: nat, logId: nat, service: int, method_: int, headers: seq<Header>, payload: seq<byte>)

  const NO_HEADER := Header([], [])
  const NO_FRAME := Frame(0, 0, 0, 0, [], [])

  // ---- Pieces ----

  /** (int32_t) of a 64-bit value: its low 32 bits, in two's complement. */
  function ToInt32(v: nat): int {
    var low := v % WORD;
    if low < WORD / 2 then low else low - WORD
  }

  /** The characters of a C string: up to the first zero byte. */
  function CString(s: seq<byte>): seq<byte> {
    if s == [] || s[0] == 0 then [] else [s[0]] + CString(s[1..])
  }

  function Take(s: seq<byte>, n: nat): seq<byte> { if |s| <= n then s else s[..n] }

  datatype Move = To(pos: nat) | Bad | Wraps

  /** pos advanced by a declared length, checked against len as the code checks it. */
  function Advance(len: nat, pos: nat, length: nat): (m: Move)
    ensures m.To? ==> m.pos == pos + length % WORD <= len
  {
    var n := length % WORD;
    if pos + n >= WORD then Wraps else if pos + n > len then Bad else To(pos + n)
  }

  function SkipField(buf: Buffer, pos: nat, wire: nat): (m: Move)
    requires pos <= |buf|
    ensures m.To? ==> pos <= m.pos <= |buf|
  {
    match wire
    case 0 => (match ReadVarint(buf, pos) case None => Bad case Some(r) => To(r.pos))
    case 1 => Advance(|buf|, pos, 8)
    case 2 => (match ReadVarint(buf, pos) case None => Bad case Some(r) => Advance(|buf|, r.pos, r.value))
    case 5 => Advance(|buf|, pos, 4)
    case _ => Bad
  }

  /** Reads one length-delimited value at pos: the bytes and the position after them. */
  datatype Chunk = Chunk(data: seq<byte>, pos: nat) | ChunkBad | ChunkWraps

  function ReadChunk(buf: Buffer, pos: nat): (c: Chunk)
    requires pos <= |buf|
    ensures c.Chunk? ==> pos < c.pos <= |buf| && |c.data| < WORD
  {
    match ReadVarint(buf, pos)
    case None => ChunkBad
    case Some(size) =>
      match Advance(|buf|, size.pos, size.value)
      case Bad => ChunkBad
      case Wraps => ChunkWraps
      case To(next) => Chunk(buf[size.pos..next], next)
  }

  // ---- Headers ----

  datatype HeaderStep = HeaderNext(header: Header, pos: nat) | HeaderBad | HeaderStepWraps

  /** Keys and values too long for the struct are cut; other fields are ignored. */
  function SetPart(h: Header, field: nat, data: seq<byte>): Header {
    if field == 1 then h.(key := CString(Take(data, KEY_MAX)))
    else if field == 2 then h.(value := CString(Take(data, VALUE_MAX)))
    else h
  }

  /** One turn of the header loop: one whole field. */
  function HeaderAt(buf: Buffer, pos: nat, h: Header): (s: HeaderStep)
    requires pos < |buf|
    ensures s.HeaderNext? ==> pos < s.pos <= |buf|
  {
    match ReadVarint(buf, pos)
    case None => HeaderBad
    case Some(tag) =>
      var field, wire := (tag.value / 8) % WORD, tag.value % 8;
      if wire != 2 then
        match SkipField(buf, tag.pos, wire)
        case Bad => HeaderBad
        case Wraps => HeaderStepWraps
        case To(next) => HeaderNext(h, next)
      else
        match ReadChunk(buf, tag.pos)
        case ChunkBad => HeaderBad
        case ChunkWraps => HeaderStepWraps
        case Chunk(data, next) => HeaderNext(SetPart(h, field, data), next)
  }

  datatype HeaderRead = HeaderRead(ok: bool, header: Header) | HeaderWraps

  /** The header loop. The caller keeps whatever was filled in, even when the loop gives up. */
  function HeaderFrom(buf: Buffer, pos: nat, h: Header): HeaderRead
    requires pos <= |buf|
    decreases |buf| - pos
  {
    if pos == |buf| then HeaderRead(true, h)
    else match HeaderAt(buf, pos, h)
      case HeaderBad => HeaderRead(false, h)
      case HeaderStepWraps => HeaderWraps
      case HeaderNext(g, next) => HeaderFrom(buf, next, g)
  }

  function ParseHeader(buf: Buffer): HeaderRead { HeaderFrom(buf, 0, NO_HEADER) }

  // ---- Frames ----

  datatype Step = Next(frame: Frame, pos: nat) | StepBad | StepWraps

  predicate Recognised(field: nat, wire: nat) {
    (1 <= field <= 4 && wire == 0) || ((field == 5 || field == 8) && wire == 2)
  }

  function SetScalar(frame: Frame, field: nat, v: nat): Frame {
    if field == 1 then frame.(seqId := v)
    else if field == 2 then frame.(logId := v)
    else if field == 3 then frame.(service := ToInt32(v))
    else frame.(method_ := ToInt32(v))
  }

  /** One turn of the frame loop: one whole field. */
  function FieldAt(buf: Buffer, pos: nat, frame: Frame): (s: Step)
    requires pos < |buf|
    ensures s.Next? ==> pos < s.pos <= |buf|
  {
    match ReadVarint(buf, pos)
    case None => StepBad
    case Some(tag) =>
      var field, wire := (tag.value / 8) % WORD, tag.value % 8;
      if 1 <= field <= 4 && wire == 0 then
        match ReadVarint(buf, tag.pos)
        case None => StepBad
        case Some(v) => Next(SetScalar(frame, field, v.value), v.pos)
      else if field == 5 && wire == 2 then
        match ReadChunk(buf, tag.pos)
        case ChunkBad => StepBad
        case ChunkWraps => StepWraps
        case Chunk(data, next) =>
          if |frame.headers| >= MAX_HEADERS then Next(frame, next)
          else match ParseHeader(data)
            case HeaderWraps => StepWraps
            case HeaderRead(_, h) => Next(frame.(headers := frame.headers + [h]), next)
      else if field == 8 && wire == 2 then
        match ReadChunk(buf, tag.pos)
        case ChunkBad => StepBad
        case ChunkWraps => StepWraps
        case Chunk(data, next) => Next(frame.(payload := data), next)
      else match SkipField(buf, tag.pos, wire)
        case Bad => StepBad
        case Wraps => StepWraps
        case To(next) => Next(frame, next)
  }

  datatype Outcome = Parsed(frame: Frame) | Malformed | Unmodelled

  function ParseFrom(buf: Buffer, pos: nat, frame: Frame): Outcome
    requires pos <= |buf|
    decreases |buf| - pos
  {
    if pos == |buf| then Parsed(frame)
    else match FieldAt(buf, pos, frame)
      case StepBad => Malformed
      case StepWraps => Unmodelled
      case Next(f, next) => ParseFrom(buf, next, f)
  }

  function Parse(buf: Buffer): Outcome { ParseFrom(buf, 0, NO_FRAME) }

  // ---- The reader at an offset ----

  lemma ChunkShift(a: seq<byte>, b: seq<byte>, p: nat)
    requires |a| + |b| < WORD && p <= |b|
    ensures var c := ReadChunk(b, p);
      if c.Chunk? then ReadChunk(a + b, |a| + p) == Chunk(c.data, |a| + c.pos)
      else ReadChunk(a + b, |a| + p) in {c, ChunkWraps}
  {
    hide ReadFrom;
    ReadShift(a, b, p, 0, 0);
    var c := ReadChunk(b, p);
    if c.Chunk? {
      var size := ReadVarint(b, p).value;
      assert (a + b)[|a| + size.pos..|a| + c.pos] == b[size.pos..c.pos];
    }
  }

  lemma SkipShift(a: seq<byte>, b: seq<byte>, p: nat, wire: nat)
    requires |a| + |b| < WORD && p <= |b|
    ensures var m := SkipField(b, p, wire);
      if m.To? then SkipField(a + b, |a| + p, wire) == To(|a| + m.pos)
      else SkipField(a + b, |a| + p, wire) in {m, Wraps}
  {
    hide ReadFrom;
    ReadShift(a, b, p, 0, 0);
  }

  /** One field reads the same at the start of b and after any a. */
  lemma FieldShift(a: seq<byte>, b: seq<byte>, p: nat, frame: Frame)
    requires |a| + |b| < WORD && p < |b|
    ensures var s := FieldAt(b, p, frame);
      if s.Next? then FieldAt(a + b, |a| + p, frame) == Next(s.frame, |a| + s.pos)
      else FieldAt(a + b, |a| + p, frame) in {s, StepWraps}
  {
    hide ReadFrom, ReadChunk, SkipField, ParseHeader, SetScalar;
    ReadShift(a, b, p, 0, 0);
    match ReadVarint(b, p)
    case None =>
    case Some(tag) =>
      var field, wire := (tag.value / 8) % WORD, tag.value % 8;
      if 1 <= field <= 4 && wire == 0 {
        ReadShift(a, b, tag.pos, 0, 0);
      } else if (field == 5 || field == 8) && wire == 2 {
        ChunkShift(a, b, tag.pos);
      } else {
        SkipShift(a, b, tag.pos, wire);
      }
  }

  lemma {:induction false} ParseShift(a: seq<byte>, b: seq<byte>, p: nat, frame: Frame)
    requires |a| + |b| < WORD && p <= |b|
    ensures var o := ParseFrom(b, p, frame);
      if o.Parsed? then ParseFrom(a + b, |a| + p, frame) == o else ParseFrom(a + b, |a| + p, frame) in {o, Unmodelled}
    decreases |b| - p
  {
    hide FieldAt;
    if p < |b| {
      FieldShift(a, b, p, frame);
      match FieldAt(b, p, frame)
      case Next(f, next) => ParseShift(a, b, next, f);
      case _ =>
    }
  }

  // ---- The reader before more bytes ----

  lemma ChunkPrefix(a: seq<byte>, b: seq<byte>, p: nat)
    requires |a| + |b| < WORD && p <= |a| && ReadChunk(a, p).Chunk?
    ensures ReadChunk(a + b, p) == ReadChunk(a, p)
  {
    ReadPrefix(a, b, p, 0, 0);
    var size := ReadVarint(a, p).value;
    var next := ReadChunk(a, p).pos;
    assert (a + b)[size.pos..next] == a[size.pos..next];
  }

  lemma SkipPrefix(a: seq<byte>, b: seq<byte>, p: nat, wire: nat)
    requires |a| + |b| < WORD && p <= |a| && SkipField(a, p, wire).To?
    ensures SkipField(a + b, p, wire) == SkipField(a, p, wire)
  {
    if wire == 0 || wire == 2 {
      ReadPrefix(a, b, p, 0, 0);
    }
  }

  lemma FieldPrefix(a: seq<byte>, b: seq<byte>, p: nat, frame: Frame)
    requires |a| + |b| < WORD && p < |a| && FieldAt(a, p, frame).Next?
    ensures FieldAt(a + b, p, frame) == FieldAt(a, p, frame)
  {
    ReadPrefix(a, b, p, 0, 0);
    var tag := ReadVarint(a, p).value;
    var field, wire := (tag.value / 8) % WORD, tag.value % 8;
    if 1 <= field <= 4 && wire == 0 {
      ReadPrefix(a, b, tag.pos, 0, 0);
    } else if (field == 5 || field == 8) && wire == 2 {
      ChunkPrefix(a, b, tag.pos);
    } else {
      SkipPrefix(a, b, tag.pos, wire);
    }
  }

  /** Parsing a whole buffer, then more: the parse goes on from where it stood. */
  lemma {:induction false} ParsePrefix(a: seq<byte>, b: seq<byte>, p: nat, frame: Frame)
    requires |a| + |b| < WORD && p <= |a| && ParseFrom(a, p, frame).Parsed?
    ensures ParseFrom(a + b, p, frame) == ParseFrom(a + b, |a|, ParseFrom(a, p, frame).frame)
    decreases |a| - p
  {
    if p < |a| {
      FieldPrefix(a, b, p, frame);
      var s := FieldAt(a, p, frame);
      ParsePrefix(a, b, s.pos, s.frame);
    }
  }

  /**
   Parsing a concatenation equals continuing the parse of the second part from the first part's result;
   only a malformed second part may behind the first one have a length that wraps.
   */
  lemma ParseConcat(a: seq<byte>, b: seq<byte>, frame: Frame)
    requires |a| + |b| < WORD
    ensures ParseFrom(a, 0, frame).Parsed? ==>
              var whole := ParseFrom(a + b, 0, frame);
              var rest := ParseFrom(b, 0, ParseFrom(a, 0, frame).frame);
              whole == rest || (!rest.Parsed? && whole == Unmodelled)
  {
    if ParseFrom(a, 0, frame).Parsed? {
      ParsePrefix(a, b, 0, frame);
      ParseShift(a, b, 0, ParseFrom(a, 0, frame).frame);
    }
  }

  // ---- Unknown fields ----

  /** A field the frame reader does not recognise, with a body of its wire type. */
  datatype Unknown =
    | UVarint(number: nat, v: u64)
    | UFixed64(number: nat, data: seq<byte>)
    | UBytes(number: nat, data: seq<byte>)
    | UFixed32(number: nat, data: seq<byte>)

  function WireOf(u: Unknown): nat {
    match u case UVarint(_, _) => 0 case UFixed64(_, _) => 1 case UBytes(_, _) => 2 case UFixed32(_, _) => 5
  }

  function BodyOf(u: Unknown): seq<byte> {
    match u
    case UVarint(_, v) => Varint(v)
    case UFixed64(_, data) => data
    case UBytes(_, data) => Varint(|data|) + data
    case UFixed32(_, data) => data
  }

  function EncodeUnknown(u: Unknown): seq<byte> { Varint(u.number * 8 + WireOf(u)) + BodyOf(u) }

  predicate Shaped(u: Unknown) {
    && u.number < WORD
    && (u.UFixed64? ==> |u.data| == 8)
    && (u.UFixed32? ==> |u.data| == 4)
  }

  predicate WellFormed(u: Unknown) { Shaped(u) && !Recognised(u.number, WireOf(u)) }

  /** Any field number from the guide's range other than 1-5 and 8 qualifies, with any of the four wire types. */
  lemma OtherNumbersQualify(u: Unknown)
    requires u.number < 0x2000_0000 && !(1 <= u.number <= 5) && u.number != 8
    requires (u.UFixed64? ==> |u.data| == 8) && (u.UFixed32? ==> |u.data| == 4)
    ensures WellFormed(u)
  {
  }

  lemma TagOf(pre: seq<byte>, number: nat, wire: nat, post: seq<byte>)
    requires number < WORD && wire < 8
    ensures var tag := number * 8 + wire;
      && ReadVarint(pre + Varint(tag) + post, |pre|) == Some(Read(tag, |pre| + |Varint(tag)|))
      && (tag / 8) % WORD == number && tag % 8 == wire
  {
    VarintRoundTrip(pre, number * 8 + wire, post);
  }

  lemma BodySkipped(u: Unknown, tag: seq<byte>)
    requires Shaped(u) && |tag + BodyOf(u)| < WORD
    ensures SkipField(tag + BodyOf(u), |tag|, WireOf(u)) == To(|tag + BodyOf(u)|)
  {
    hide ReadFrom, Varint;
    match u
    case UVarint(_, v) =>
      VarintRoundTrip(tag, v, []);
      assert tag + Varint(v) == tag + Varint(v) + [];
    case UBytes(_, data) =>
      VarintRoundTrip(tag, |data|, data);
      assert tag + (Varint(|data|) + data) == tag + Varint(|data|) + data;
    case UFixed64(_, data) =>
    case UFixed32(_, data) =>
  }

  /** Reading an unknown field on its own changes nothing. */
  lemma UnknownIgnored(u: Unknown, frame: Frame)
    requires WellFormed(u) && |EncodeUnknown(u)| < WORD
    ensures ParseFrom(EncodeUnknown(u), 0, frame) == Parsed(frame)
  {
    hide ReadFrom, SkipField, BodyOf, ReadChunk, Varint;
    var tag := Varint(u.number * 8 + WireOf(u));
    TagOf([], u.number, WireOf(u), BodyOf(u));
    assert EncodeUnknown(u) == [] + tag + BodyOf(u);
    BodySkipped(u, tag);
    assert FieldAt(EncodeUnknown(u), 0, frame) == Next(frame, |EncodeUnknown(u)|);
  }

  /** Splicing an unknown field in at a field boundary leaves the parsed frame unchanged. */
  lemma SpliceUnknown(a: seq<byte>, u: Unknown, b: seq<byte>)
    requires WellFormed(u) && |a| + |EncodeUnknown(u)| + |b| < WORD && Parse(a).Parsed?
    ensures Parse(a + EncodeUnknown(u) + b).Parsed? <==> Parse(a + b).Parsed?
    ensures Parse(a + EncodeUnknown(u) + b) == Parse(a + b)
            || Unmodelled in {Parse(a + EncodeUnknown(u) + b), Parse(a + b)}
  {
    var bytes := EncodeUnknown(u);
    var f := Parse(a).frame;
    UnknownIgnored(u, f);
    ParseConcat(a, bytes, NO_FRAME);
    ParseConcat(a + bytes, b, NO_FRAME);
    ParseConcat(a, b, NO_FRAME);
  }

  // ---- Last one wins ----

  /** A part of the frame after the same bytes were read from two starting frames. */
  ghost predicate Same<T>(start1: T, end1: T, start2: T, end2: T) {
    end1 == end2 || (end1 == start1 && end2 == start2)
  }

  ghost predicate Agree(f: Frame, f1: Frame, g: Frame, g1: Frame) {
    && Same(f.seqId, f1.seqId, g.seqId, g1.seqId)
    && Same(f.logId, f1.logId, g.logId, g1.logId)
    && Same(f.service, f1.service, g.service, g1.service)
    && Same(f.method_, f1.method_, g.method_, g1.method_)
    && Same(f.payload, f1.payload, g.payload, g1.payload)
  }

  function Cap(hs: seq<Header>): seq<Header> { if |hs| <= MAX_HEADERS then hs else hs[..MAX_HEADERS] }

  /**
   Whatever frame the reading starts from, it sets the same scalars and payload to the same values,
   and leaves the others as they were: the last occurrence decides.
   */
  lemma {:induction false} LastOneWins(buf: Buffer, pos: nat, f: Frame, g: Frame)
    requires pos <= |buf| && ParseFrom(buf, pos, f).Parsed? && ParseFrom(buf, pos, g).Parsed?
    ensures Agree(f, ParseFrom(buf, pos, f).frame, g, ParseFrom(buf, pos, g).frame)
    decreases |buf| - pos
  {
    hide ReadFrom;
    if pos < |buf| {
      var s, t := FieldAt(buf, pos, f), FieldAt(buf, pos, g);
      assert s.pos == t.pos;
      LastOneWins(buf, s.pos, s.frame, t.frame);
    }
  }

  /** Headers append, in order, up to the limit. */
  lemma {:induction false} HeadersAppend(buf: Buffer, pos: nat, f: Frame, g: Frame, before: seq<Header>)
    requires pos <= |buf|
    requires |before| <= MAX_HEADERS && |g.headers| <= MAX_HEADERS && f.headers == Cap(before + g.headers)
    ensures ParseFrom(buf, pos, f).Parsed? && ParseFrom(buf, pos, g).Parsed? ==>
              ParseFrom(buf, pos, f).frame.headers == Cap(before + ParseFrom(buf, pos, g).frame.headers)
    decreases |buf| - pos
  {
    if pos < |buf| && ParseFrom(buf, pos, f).Parsed? && ParseFrom(buf, pos, g).Parsed? {
      var s, t := FieldAt(buf, pos, f), FieldAt(buf, pos, g);
      assert s.pos == t.pos;
      if t.frame.headers != g.headers {
        var h := t.frame.headers[|t.frame.headers| - 1];
        assert before + (g.headers + [h]) == (before + g.headers) + [h];
      }
      HeadersAppend(buf, s.pos, s.frame, t.frame, before);
    }
  }
}
