/**
 Unknown fields inside a header of a Feishu frame (components/cap_im_platform/src/cap_im_feishu.c,
 lines 730-771 and 811-818): the header reader is compositional as the frame reader is, and a field
 it does not know changes neither the header nor the frame the header is nested in.
 Main results: HeaderConcat, SpliceInHeader, SpliceNested.
 */
module FeishuHeader {
  import opened Common
  import opened FeishuVarint
  import opened FeishuFrame
  import opened FeishuCodec

  ghost predicate Complete(r: HeaderRead) { r.HeaderRead? && r.ok }

  // ---- The header reader on a concatenation ----

  lemma HeaderAtShift(a: seq<byte>, b: seq<byte>, p: nat, h: Header)
    requires |a| + |b| < WORD && p < |b|
    ensures var s := HeaderAt(b, p, h);
      if s.HeaderNext? then HeaderAt(a + b, |a| + p, h) == HeaderNext(s.header, |a| + s.pos)
      else HeaderAt(a + b, |a| + p, h) in {s, HeaderStepWraps}
  {
    hide ReadFrom, ReadChunk, SkipField, SetPart;
    ReadShift(a, b, p, 0, 0);
    match ReadVarint(b, p)
    case None =>
    case Some(tag) =>
      if tag.value % 8 == 2 {
        ChunkShift(a, b, tag.pos);
      } else {
        SkipShift(a, b, tag.pos, tag.value % 8);
      }
  }

  lemma {:induction false} HeaderShift(a: seq<byte>, b: seq<byte>, p: nat, h: Header)
    requires |a| + |b| < WORD && p <= |b|
    ensures var r := HeaderFrom(b, p, h);
      if Complete(r) then HeaderFrom(a + b, |a| + p, h) == r else HeaderFrom(a + b, |a| + p, h) in {r, HeaderWraps}
    decreases |b| - p
  {
    hide HeaderAt;
    if p < |b| {
      HeaderAtShift(a, b, p, h);
      match HeaderAt(b, p, h)
      case HeaderNext(g, next) => HeaderShift(a, b, next, g);
      case _ =>
    }
  }

  lemma HeaderAtPrefix(a: seq<byte>, b: seq<byte>, p: nat, h: Header)
    requires |a| + |b| < WORD && p < |a| && HeaderAt(a, p, h).HeaderNext?
    ensures HeaderAt(a + b, p, h) == HeaderAt(a, p, h)
  {
    hide ReadFrom, ReadChunk, SkipField, SetPart;
    ReadPrefix(a, b, p, 0, 0);
    var tag := ReadVarint(a, p).value;
    if tag.value % 8 == 2 {
      ChunkPrefix(a, b, tag.pos);
    } else {
      SkipPrefix(a, b, tag.pos, tag.value % 8);
    }
  }

  lemma {:induction false} HeaderPrefix(a: seq<byte>, b: seq<byte>, p: nat, h: Header)
    requires |a| + |b| < WORD && p <= |a| && Complete(HeaderFrom(a, p, h))
    ensures HeaderFrom(a + b, p, h) == HeaderFrom(a + b, |a|, HeaderFrom(a, p, h).header)
    decreases |a| - p
  {
    hide HeaderAt;
    if p < |a| {
      HeaderAtPrefix(a, b, p, h);
      var s := HeaderAt(a, p, h);
      HeaderPrefix(a, b, s.pos, s.header);
    }
  }

  /** Reading a header's bytes in two parts is reading the second from what the first gave. */
  lemma HeaderConcat(a: seq<byte>, b: seq<byte>, h: Header)
    requires |a| + |b| < WORD
    ensures Complete(HeaderFrom(a, 0, h)) ==>
              var whole := HeaderFrom(a + b, 0, h);
              var rest := HeaderFrom(b, 0, HeaderFrom(a, 0, h).header);
              whole == rest || (!Complete(rest) && whole == HeaderWraps)
  {
    if Complete(HeaderFrom(a, 0, h)) {
      HeaderPrefix(a, b, 0, h);
      HeaderShift(a, b, 0, HeaderFrom(a, 0, h).header);
    }
  }

  // ---- Unknown fields ----

  /** Everything but a length-delimited field 1 or 2. */
  predicate UnknownInHeader(u: Unknown) {
    Shaped(u) && !(u.UBytes? && (u.number == 1 || u.number == 2))
  }

  lemma ChunkOfBody(u: Unknown, tag: seq<byte>)
    requires u.UBytes? && |tag + BodyOf(u)| < WORD
    ensures ReadChunk(tag + BodyOf(u), |tag|) == Chunk(u.data, |tag + BodyOf(u)|)
  {
    hide ReadFrom, Varint, ReadChunk;
    ChunkRead(tag, u.data, []);
    assert tag + BodyOf(u) == tag + Varint(|u.data|) + u.data + [];
  }

  lemma UnknownHeaderField(u: Unknown, h: Header)
    requires UnknownInHeader(u) && |EncodeUnknown(u)| < WORD
    ensures HeaderFrom(EncodeUnknown(u), 0, h) == HeaderRead(true, h)
  {
    hide ReadFrom, SkipField, BodyOf, ReadChunk, Varint;
    var tag := Varint(u.number * 8 + WireOf(u));
    TagOf([], u.number, WireOf(u), BodyOf(u));
    assert EncodeUnknown(u) == [] + tag + BodyOf(u);
    BodySkipped(u, tag);
    if u.UBytes? {
      ChunkOfBody(u, tag);
    }
    assert HeaderAt(EncodeUnknown(u), 0, h) == HeaderNext(h, |EncodeUnknown(u)|);
  }

  /** An unknown field at a field boundary of a header's bytes leaves the header read from them unchanged. */
  lemma SpliceInHeader(a: seq<byte>, u: Unknown, b: seq<byte>)
    requires UnknownInHeader(u) && |a| + |EncodeUnknown(u)| + |b| < WORD && Complete(ParseHeader(a))
    ensures Complete(ParseHeader(a + EncodeUnknown(u) + b)) <==> Complete(ParseHeader(a + b))
    ensures ParseHeader(a + EncodeUnknown(u) + b) == ParseHeader(a + b)
            || HeaderWraps in {ParseHeader(a + EncodeUnknown(u) + b), ParseHeader(a + b)}
  {
    hide HeaderFrom;
    var bytes := EncodeUnknown(u);
    var h := ParseHeader(a).header;
    UnknownHeaderField(u, h);
    HeaderConcat(a, bytes, NO_HEADER);
    HeaderConcat(a + bytes, b, NO_HEADER);
    HeaderConcat(a, b, NO_HEADER);
  }

  // ---- In the frame ----

  /** What one header field with these bytes does to a frame. */
  function WithHeader(data: Buffer, f: Frame): Outcome {
    if |f.headers| >= MAX_HEADERS then Parsed(f)
    else match ParseHeader(data)
      case HeaderWraps => Unmodelled
      case HeaderRead(_, h) => Parsed(f.(headers := f.headers + [h]))
  }

  lemma NestedRead(data: seq<byte>, f: Frame)
    requires |Bytes(5, data)| < WORD
    ensures |data| < WORD && ParseFrom(Bytes(5, data), 0, f) == WithHeader(data, f)
  {
    hide ReadFrom, ReadChunk, ReadVarint, ParseHeader, SkipField, Varint;
    var bytes := Bytes(5, data);
    assert bytes == [] + bytes + [];
    BytesRead([], 5, data, []);
  }

  lemma FrameWithHeader(before: seq<byte>, data: Buffer, after: seq<byte>)
    requires |before| + |Bytes(5, data)| + |after| < WORD && Parse(before).Parsed? && ParseHeader(data).HeaderRead?
    ensures var whole := Parse(before + Bytes(5, data) + after);
      var read := WithHeader(data, Parse(before).frame);
      var rest := ParseFrom(after, 0, read.frame);
      read.Parsed? && (whole == rest || (!rest.Parsed? && whole == Unmodelled))
  {
    hide ParseFrom, ParseHeader, Bytes;
    var bytes := Bytes(5, data);
    NestedRead(data, Parse(before).frame);
    ParseConcat(before, bytes, NO_FRAME);
    ParseConcat(before + bytes, after, NO_FRAME);
  }

  /**
   Splicing an unknown field into the bytes of a header, with the header's length adjusted, leaves the
   parsed frame unchanged, unless a malformed rest of the header declares a length that wraps.
   */
  lemma SpliceNested(before: seq<byte>, a: seq<byte>, u: Unknown, b: seq<byte>, after: seq<byte>)
    requires |before| + |Bytes(5, a + EncodeUnknown(u) + b)| + |after| < WORD
    requires |before| + |Bytes(5, a + b)| + |after| < WORD
    requires Parse(before).Parsed? && UnknownInHeader(u) && Complete(ParseHeader(a))
    ensures var spliced := Parse(before + Bytes(5, a + EncodeUnknown(u) + b) + after);
      var plain := Parse(before + Bytes(5, a + b) + after);
      HeaderWraps !in {ParseHeader(a + EncodeUnknown(u) + b), ParseHeader(a + b)} ==>
        && (spliced.Parsed? <==> plain.Parsed?)
        && (spliced == plain || Unmodelled in {spliced, plain})
    ensures Complete(ParseHeader(a + b)) ==>
              HeaderWraps !in {ParseHeader(a + EncodeUnknown(u) + b), ParseHeader(a + b)}
  {
    hide ParseFrom, ParseHeader, EncodeUnknown;
    SpliceInHeader(a, u, b);
    if HeaderWraps !in {ParseHeader(a + EncodeUnknown(u) + b), ParseHeader(a + b)} {
      FrameWithHeader(before, a + EncodeUnknown(u) + b, after);
      FrameWithHeader(before, a + b, after);
    }
  }
}
