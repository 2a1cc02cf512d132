/**
 Percent-encoding as the WeChat client writes it (components/cap_im_platform/src/cap_im_wechat.c,
 lines 1012-1053) and as the HTTP server reads it in place
 (components/official_http_server/http_server_utils.c, lines 26-77); RFC 3986, sections 2.1 and 2.3.
 A string is its bytes up to the terminating zero.
 Main results: RoundTrip, EncodedIff, DecodeInPlace.
 */
module PercentCoding {
  import opened Common

  const PERCENT: byte := 37
  const PLUS: byte := 43
  const SPACE: byte := 32

  /** Letters, digits, '-', '.', '_' and '~'. */
  predicate Unreserved(b: byte) {
    65 <= b <= 90 || 97 <= b <= 122 || 48 <= b <= 57 || b == 45 || b == 95 || b == 46 || b == 126
  }

  /** The upper-case hexadecimal digit for a value below 16. */
  function HexDigit(v: nat): byte
    requires v < 16
  {
    if v < 10 then 48 + v else 55 + v
  }

  /** Value of a hexadecimal digit, upper or lower case. */
  function HexValue(b: byte): (r: Option<nat>)
    ensures r.Some? ==> r.value < 16
  {
    if 48 <= b <= 57 then Some(b - 48)
    else if 65 <= b <= 70 then Some(b - 55)
    else if 97 <= b <= 102 then Some(b - 87)
    else None
  }

  function EncodeByte(b: byte): (r: seq<byte>)
    ensures 1 <= |r| <= 3
  {
    if Unreserved(b) then [b] else [PERCENT, HexDigit(b / 16), HexDigit(b % 16)]
  }

  function Encode(s: seq<byte>): seq<byte> {
    if s == [] then [] else EncodeByte(s[0]) + Encode(s[1..])
  }

  /** A percent sign followed by two hexadecimal digits. */
  predicate IsEscape(s: seq<byte>) {
    |s| >= 3 && s[0] == PERCENT && HexValue(s[1]).Some? && HexValue(s[2]).Some?
  }

  function Escaped(s: seq<byte>): byte
    requires IsEscape(s)
  {
    16 * HexValue(s[1]).value + HexValue(s[2]).value
  }

  /** Escapes become the byte they name, plus signs become spaces, anything else stands for itself. */
  function Decode(s: seq<byte>): (r: seq<byte>)
    ensures |r| <= |s|
  {
    if s == [] then []
    else if IsEscape(s) then [Escaped(s)] + Decode(s[3..])
    else [if s[0] == PLUS then SPACE else s[0]] + Decode(s[1..])
  }

  // ---- Decoding undoes encoding ----

  lemma HexRoundTrip(v: nat)
    requires v < 16
    ensures HexValue(HexDigit(v)) == Some(v) && HexDigit(v) != 0
  {
  }

  lemma ByteRoundTrip(b: byte, rest: seq<byte>)
    ensures Decode(EncodeByte(b) + rest) == [b] + Decode(rest)
  {
    var s := EncodeByte(b) + rest;
    if Unreserved(b) {
      assert s[1..] == rest;
    } else {
      HexRoundTrip(b / 16);
      HexRoundTrip(b % 16);
      assert IsEscape(s) && Escaped(s) == b;
      assert s[3..] == rest;
    }
  }

  /** The server reads back every string the client writes. */
  lemma {:induction false} RoundTrip(s: seq<byte>)
    ensures Decode(Encode(s)) == s
  {
    if s != [] {
      ByteRoundTrip(s[0], Encode(s[1..]));
      RoundTrip(s[1..]);
      assert s == [s[0]] + s[1..];
    }
  }

  // ---- The encoder's language ----

  /** An escape the encoder would write: upper-case digits, and a byte that needs escaping. */
  predicate IsCanonicalEscape(t: seq<byte>) {
    IsEscape(t) && !Unreserved(Escaped(t)) && t[..3] == EncodeByte(Escaped(t))
  }

  /** Only unreserved characters and escapes of the other bytes. */
  predicate Canonical(t: seq<byte>) {
    t == []
    || (Unreserved(t[0]) && Canonical(t[1..]))
    || (IsCanonicalEscape(t) && Canonical(t[3..]))
  }

  lemma {:induction false} EncodeIsCanonical(s: seq<byte>)
    ensures Canonical(Encode(s)) && |s| <= |Encode(s)| <= 3 * |s|
  {
    if s != [] {
      EncodeIsCanonical(s[1..]);
      var t := Encode(s);
      if Unreserved(s[0]) {
        assert t[1..] == Encode(s[1..]);
      } else {
        HexRoundTrip(s[0] / 16);
        HexRoundTrip(s[0] % 16);
        assert t[..3] == EncodeByte(s[0]) && Escaped(t) == s[0];
        assert t[3..] == Encode(s[1..]);
      }
    }
  }

  lemma {:induction false} CanonicalRoundTrip(t: seq<byte>)
    requires Canonical(t)
    ensures Encode(Decode(t)) == t
    decreases |t|
  {
    if t == [] {
    } else if Unreserved(t[0]) {
      assert !IsEscape(t) && Decode(t) == [t[0]] + Decode(t[1..]);
      CanonicalRoundTrip(t[1..]);
      assert Decode(t)[1..] == Decode(t[1..]);
      assert t == [t[0]] + t[1..];
    } else {
      CanonicalRoundTrip(t[3..]);
      assert Decode(t)[1..] == Decode(t[3..]);
      assert t == t[..3] + t[3..];
    }
  }

  /** The encoder's outputs are exactly the canonical strings, and the two directions are inverse. */
  lemma EncodedIff(t: seq<byte>)
    ensures Canonical(t) <==> exists s :: Encode(s) == t
    ensures Canonical(t) ==> Encode(Decode(t)) == t
  {
    if Canonical(t) {
      CanonicalRoundTrip(t);
    }
    if s :| Encode(s) == t {
      EncodeIsCanonical(s);
    }
  }

  /** An encoded string of a C string is a C string: it has no zero byte. */
  lemma {:induction false} EncodeHasNoZero(s: seq<byte>)
    ensures 0 !in Encode(s)
  {
    if s != [] {
      EncodeHasNoZero(s[1..]);
      if !Unreserved(s[0]) {
        HexRoundTrip(s[0] / 16);
        HexRoundTrip(s[0] % 16);
      }
    }
  }

  // ---- Byte by byte ----

  /** The bytes of "0123456789ABCDEF" and of "0123456789abcdef". */
  const UPPER_DIGITS: seq<byte> := [48, 49, 50, 51, 52, 53, 54, 55, 56, 57, 65, 66, 67, 68, 69, 70]
  const LOWER_DIGITS: seq<byte> := [48, 49, 50, 51, 52, 53, 54, 55, 56, 57, 97, 98, 99, 100, 101, 102]

  /**
   Letters, digits, '-', '.', '_' and '~' are written as they are; any other byte becomes '%' and its two
   upper-case hexadecimal digits.
   */
  lemma EncodedAs(s: seq<byte>, b: byte)
    ensures Encode([]) == []
    ensures Encode(s + [b]) == Encode(s)
         + if (65 <= b <= 90 || 97 <= b <= 122 || 48 <= b <= 57 || b in {45, 46, 95, 126}) then [b]
           else [37, UPPER_DIGITS[b / 16], UPPER_DIGITS[b % 16]]
  {
    hide EncodeByte;
    EncodeSnoc(s, b);
    EncodedByte(b);
  }

  lemma EncodedByte(b: byte)
    ensures EncodeByte(b)
         == if (65 <= b <= 90 || 97 <= b <= 122 || 48 <= b <= 57 || b in {45, 46, 95, 126}) then [b]
            else [37, UPPER_DIGITS[b / 16], UPPER_DIGITS[b % 16]]
  {
    DigitWritten(b / 16);
    DigitWritten(b % 16);
  }

  lemma DigitWritten(v: nat)
    requires v < 16
    ensures HexDigit(v) == UPPER_DIGITS[v]
  {
  }

  /** b is the hexadecimal digit for v, in upper or lower case. */
  ghost predicate DigitFor(b: byte, v: nat) {
    v < 16 && (b == UPPER_DIGITS[v] || b == LOWER_DIGITS[v])
  }

  lemma DigitIs(b: byte)
    ensures forall v: nat :: DigitFor(b, v) <==> HexValue(b) == Some(v)
  {
  }

  /** '%' and two hexadecimal digits are read as the byte they name. */
  lemma DecodedEscape(h: byte, l: byte, v: nat, w: nat, rest: seq<byte>)
    requires DigitFor(h, v) && DigitFor(l, w)
    ensures Decode([37, h, l] + rest) == [16 * v + w] + Decode(rest)
  {
    hide DigitFor;
    DigitIs(h);
    DigitIs(l);
    var s := [37, h, l] + rest;
    assert s[3..] == rest;
  }

  /** '+' is read as a space and any other byte that begins no escape as itself. */
  lemma DecodedByte(s: seq<byte>)
    requires s != []
    requires !(s[0] == 37 && |s| >= 3 && exists v: nat, w: nat :: DigitFor(s[1], v) && DigitFor(s[2], w))
    ensures Decode([]) == [] && Decode(s) == [if s[0] == 43 then 32 else s[0]] + Decode(s[1..])
  {
    hide DigitFor;
    if |s| >= 3 {
      DigitIs(s[1]);
      DigitIs(s[2]);
    }
  }

  // ---- The code ----

  lemma {:induction false} EncodeSnoc(s: seq<byte>, b: byte)
    ensures Encode(s + [b]) == Encode(s) + EncodeByte(b)
  {
    if s == [] {
      assert [b][1..] == [];
    } else {
      assert (s + [b])[1..] == s[1..] + [b];
      EncodeSnoc(s[1..], b);
    }
  }

  /** One turn of the encoder: the byte, or its escape, goes to the cursor. */
  method PutEncoded(buf: array<byte>, cursor: nat, b: byte) returns (end: nat)
    requires cursor + 3 <= buf.Length
    modifies buf
    ensures cursor < end <= cursor + 3 && buf[..end] == old(buf[..cursor]) + EncodeByte(b)
  {
    ghost var before := buf[..cursor];
    if Unreserved(b) {
      buf[cursor] := b;
      end := cursor + 1;
    } else {
      buf[cursor] := PERCENT;
      buf[cursor + 1] := HexDigit(b / 16);
      buf[cursor + 2] := HexDigit(b % 16);
      end := cursor + 3;
    }
    assert buf[..cursor] == before;
    assert buf[..end] == before + EncodeByte(b);
  }

  /** cap_im_wechat_url_encode_dup on a string of known length; the buffer is three times as long and one more. */
  method EncodeDup(input: seq<byte>, canAlloc: bool) returns (err: Err, buf: array<byte>, length: nat)
    requires 0 !in input
    ensures err == if canAlloc then Err.Ok else NoMem
    ensures err == Err.Ok ==>
              && length < buf.Length == 3 * |input| + 1
              && buf[..length] == Encode(input) && buf[length] == 0
  {
    if !canAlloc {
      return NoMem, new byte[0], 0;
    }
    buf := new byte[3 * |input| + 1];
    length := 0;
    for i := 0 to |input|
      invariant length <= 3 * i
      invariant buf[..length] == Encode(input[..i])
    {
      var b := input[i];
      EncodeSnoc(input[..i], b);
      assert input[..i + 1] == input[..i] + [b];
      length := PutEncoded(buf, length, b);
    }
    assert input[..|input|] == input;
    buf[length] := 0;
    return Err.Ok, buf, length;
  }

  /** The escape at a position that holds a percent sign, if there is one; nothing past the terminator is read. */
  method ReadEscape(value: array<byte>, src: nat, ghost n: nat) returns (b: Option<byte>)
    requires src < n < value.Length && value[n] == 0 && (forall k | src <= k < n :: value[k] != 0)
    ensures b == if IsEscape(value[src..n]) then Some(Escaped(value[src..n])) else None
  {
    ghost var rest := value[src..n];
    if value[src] != PERCENT || value[src + 1] == 0 || value[src + 2] == 0 {
      return None;
    }
    assert rest[1] == value[src + 1] && rest[2] == value[src + 2];
    var hi, lo := HexValue(value[src + 1]), HexValue(value[src + 2]);
    return if hi.Some? && lo.Some? then Some(16 * hi.value + lo.value) else None;
  }

  /** One turn of a decoder that has written `written` and has `rest` left to read. */
  lemma DecodeStep(written: seq<byte>, rest: seq<byte>)
    requires rest != []
    ensures IsEscape(rest) ==> written + Decode(rest) == (written + [Escaped(rest)]) + Decode(rest[3..])
    ensures !IsEscape(rest) ==>
              written + Decode(rest) == (written + [if rest[0] == PLUS then SPACE else rest[0]]) + Decode(rest[1..])
  {
    hide IsEscape, Escaped;
  }

  /**
   http_server_url_decode_inplace: reading and writing the same buffer. The write position never
   passes the read position, so it computes what a decoder with a buffer of its own would.
   */
  method DecodeInPlace(value: array<byte>, ghost n: nat) returns (length: nat)
    requires n < value.Length && value[n] == 0 && (forall k | 0 <= k < n :: value[k] != 0)
    modifies value
    ensures length <= n && value[..length] == Decode(old(value[..n])) && value[length] == 0
    ensures forall k | n < k < value.Length :: value[k] == old(value[k])
  {
    hide Decode, IsEscape, Escaped;
    ghost var all := value[..n];
    var src := 0;
    length := 0;
    assert all[0..] == all;
    while value[src] != 0
      invariant length <= src <= n
      invariant forall k | src <= k < value.Length :: value[k] == old(value[k])
      invariant value[..length] + Decode(all[src..]) == Decode(all)
      decreases n - src
    {
      ghost var before := value[..length];
      assert value[src..n] == all[src..];
      DecodeStep(before, all[src..]);
      var escaped := ReadEscape(value, src, n);
      if escaped.Some? {
        EscapeLength(all[src..]);
        value[length] := escaped.value;
        assert all[src..][3..] == all[src + 3..];
        src := src + 3;
      } else {
        var b := value[src];
        value[length] := if b == PLUS then SPACE else b;
        assert all[src..][1..] == all[src + 1..];
        src := src + 1;
      }
      length := length + 1;
      assert value[..length] == before + [value[length - 1]];
    }
    EndOfDecode(all[n..]);
    value[length] := 0;
  }

  lemma EscapeLength(s: seq<byte>)
    requires IsEscape(s)
    ensures |s| >= 3
  {
  }

  lemma EndOfDecode(s: seq<byte>)
    requires s == []
    ensures Decode(s) == []
  {
  }
}
