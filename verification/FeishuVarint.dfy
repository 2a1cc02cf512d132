/**
 Base-128 varints as the Feishu frame codec writes and reads them
 (components/cap_im_platform/src/cap_im_feishu.c, lines 678-695 and 853-870; Protocol Buffers
 Encoding guide, section "Base 128 Varints").
 */
module FeishuVarint {
  import opened Common

  const U64 := 0x1_0000_0000_0000_0000

  type u64 = v: int | 0 <= v < U64

  function Pow2(n: nat): (p: nat)
    ensures p >= 1
  {
    if n == 0 then 1 else 2 * Pow2(n - 1)
  }

  /** The bytes written for a value: seven bits at a time, least significant first. */
  function Varint(v: nat): (bytes: seq<byte>)
    ensures |bytes| >= 1
  {
    if v < 128 then [v] else [v % 128 + 128] + Varint(v / 128)
  }

  datatype Read = Read(value: nat, pos: nat)

  /**
   The reading loop from a given shift and partial value on. The shift drops what leaves 64 bits. The
   loop itself ORs the shifted bits in; OrIsSum shows that this is the addition written here.
   */
  function ReadFrom(buf: seq<byte>, pos: nat, shift: nat, value: nat): (r: Option<Read>)
    requires pos <= |buf|
    ensures r.Some? ==> pos < r.value.pos <= |buf|
    decreases |buf| - pos
  {
    if pos == |buf| || shift > 63 then None
    else
      var b := buf[pos];
      var next := value + ((b % 128) * Pow2(shift)) % U64;
      if b < 128 then Some(Read(next, pos + 1)) else ReadFrom(buf, pos + 1, shift + 7, next)
  }

  function ReadVarint(buf: seq<byte>, pos: nat): (r: Option<Read>)
    requires pos <= |buf|
    ensures r.Some? ==> pos < r.value.pos <= |buf|
  {
    ReadFrom(buf, pos, 0, 0)
  }

  lemma {:induction false} Pow2Add(a: nat, b: nat)
    ensures Pow2(a + b) == Pow2(a) * Pow2(b)
  {
    if b == 0 {
    } else {
      Pow2Add(a, b - 1);
      assert Pow2(a + b) == 2 * Pow2(a + (b - 1));
    }
  }

  lemma {:induction false} Pow2Mono(a: nat, b: nat)
    requires a <= b
    ensures Pow2(a) <= Pow2(b)
  {
    if a < b {
      Pow2Mono(a, b - 1);
    }
  }

  lemma Pow2Is()
    ensures Pow2(7) == 128 && Pow2(64) == U64
  {
    assert Pow2(8) == 256;
    Pow2Add(8, 8);
    Pow2Add(16, 16);
    Pow2Add(32, 32);
  }

  lemma SplitScaled(v: nat, p: nat)
    ensures v * p == (v % 128) * p + (v / 128) * (128 * p)
    ensures 0 <= (v % 128) * p && 0 <= (v / 128) * (128 * p)
  {
    var q, r := v / 128, v % 128;
    assert v == 128 * q + r;
    Distribute(128 * q, r, p);
    Reassociate(q, p);
  }

  lemma Reassociate(q: nat, p: nat)
    ensures (128 * q) * p == q * (128 * p)
  {
  }

  /** A positive value that still fits after scaling is scaled by less than 2^64. */
  lemma ScaleBelow64(v: nat, shift: nat)
    requires v >= 1 && v * Pow2(shift) < U64
    ensures shift <= 63
  {
    MulAtLeast(v, Pow2(shift));
    if shift > 63 {
      Pow2Is();
      Pow2Mono(64, shift);
    }
  }

  /** Splitting off the low seven bits of a value that fits keeps everything in range. */
  lemma ScaleStep(v: nat, shift: nat)
    requires v * Pow2(shift) < U64
    ensures (v % 128) * Pow2(shift) < U64
    ensures (v / 128) * Pow2(shift + 7) < U64
    ensures v * Pow2(shift) == (v % 128) * Pow2(shift) + (v / 128) * Pow2(shift + 7)
    ensures v >= 128 ==> shift + 7 <= 63
    ensures v >= 1 ==> shift <= 63
  {
    hide Pow2;
    Pow2Add(shift, 7);
    SevenBits();
    SplitScaled(v, Pow2(shift));
    if v >= 1 {
      ScaleBelow64(v, shift);
    }
    if v >= 128 {
      ScaleBelow64(v / 128, shift + 7);
    }
  }

  lemma SevenBits()
    ensures Pow2(7) == 128
  {
    Pow2Is();
  }

  lemma Distribute(a: nat, b: nat, p: nat)
    ensures (a + b) * p == a * p + b * p
  {
  }

  lemma MulAtLeast(a: nat, p: nat)
    requires a >= 1
    ensures a * p >= p
  {
    assert a * p == (a - 1) * p + p;
    assert 0 <= (a - 1) * p;
  }

  lemma NoTruncation(x: nat)
    requires x < U64
    ensures x % U64 == x
  {
  }

  /** One turn of the reading loop on a byte whose seven bits still fit. */
  lemma ReadOne(buf: seq<byte>, pos: nat, shift: nat, value: nat)
    requires pos < |buf| && shift <= 63 && (buf[pos] % 128) * Pow2(shift) < U64
    ensures var next := value + (buf[pos] % 128) * Pow2(shift);
      ReadFrom(buf, pos, shift, value)
      == if buf[pos] < 128 then Some(Read(next, pos + 1)) else ReadFrom(buf, pos + 1, shift + 7, next)
  {
    NoTruncation((buf[pos] % 128) * Pow2(shift));
  }

  /** Reading what was written for v, in the middle of anything, adds v at the current shift. */
  lemma {:induction false} ReadWritten(pre: seq<byte>, v: nat, post: seq<byte>, shift: nat, value: nat)
    requires v * Pow2(shift) < U64 && shift <= 63
    ensures ReadFrom(pre + Varint(v) + post, |pre|, shift, value)
         == Some(Read(value + v * Pow2(shift), |pre| + |Varint(v)|))
    decreases v
  {
    hide Pow2, ReadFrom;
    var buf := pre + Varint(v) + post;
    assert buf[|pre|] == Varint(v)[0];
    assert Varint(v)[0] % 128 == v % 128;
    ScaleStep(v, shift);
    ReadOne(buf, |pre|, shift, value);
    if v >= 128 {
      var pre1 := pre + [Varint(v)[0]];
      assert Varint(v) == [Varint(v)[0]] + Varint(v / 128);
      assert buf == pre1 + Varint(v / 128) + post;
      ReadWritten(pre1, v / 128, post, shift + 7, value + (v % 128) * Pow2(shift));
    }
  }

  /** Writing then reading is the identity on every 64-bit value, wherever the bytes stand. */
  lemma VarintRoundTrip(pre: seq<byte>, v: u64, post: seq<byte>)
    ensures ReadVarint(pre + Varint(v) + post, |pre|) == Some(Read(v, |pre| + |Varint(v)|))
    ensures |Varint(v)| <= 10
  {
    ReadWritten(pre, v, post, 0, 0);
    Pow2Is();
    Pow2Add(64, 6);
    Pow2Mono(64, 70);
    VarintLength(v, 10);
  }

  /** k groups of seven bits are enough for a value below 2^(7k). */
  lemma {:induction false} VarintLength(v: nat, k: nat)
    requires 1 <= k && v < Pow2(7 * k)
    ensures |Varint(v)| <= k
  {
    Pow2Is();
    if v >= 128 {
      assert k > 1;
      Pow2Add(7 * (k - 1), 7);
      assert 7 * (k - 1) + 7 == 7 * k;
      assert v / 128 < Pow2(7 * (k - 1));
      VarintLength(v / 128, k - 1);
    }
  }

  // ---- The reader looks only at the bytes from its position on ----

  lemma {:induction false} ReadShift(a: seq<byte>, b: seq<byte>, p: nat, shift: nat, value: nat)
    requires p <= |b|
    ensures ReadFrom(a + b, |a| + p, shift, value)
         == match ReadFrom(b, p, shift, value)
            case None => None
            case Some(r) => Some(Read(r.value, |a| + r.pos))
    decreases |b| - p
  {
    if p < |b| && shift <= 63 {
      assert (a + b)[|a| + p] == b[p];
      var next := value + ((b[p] % 128) * Pow2(shift)) % U64;
      ReadShift(a, b, p + 1, shift + 7, next);
    }
  }

  lemma {:induction false} ReadPrefix(a: seq<byte>, b: seq<byte>, p: nat, shift: nat, value: nat)
    requires p <= |a| && ReadFrom(a, p, shift, value).Some?
    ensures ReadFrom(a + b, p, shift, value) == ReadFrom(a, p, shift, value)
    decreases |a| - p
  {
    assert (a + b)[p] == a[p];
    var next := value + ((a[p] % 128) * Pow2(shift)) % U64;
    if a[p] >= 128 {
      ReadPrefix(a, b, p + 1, shift + 7, next);
    }
  }

  /** Only canonical 64-bit results come out of the reader. */
  lemma {:induction false} ReadFits(buf: seq<byte>, pos: nat, shift: nat, value: nat)
    requires pos <= |buf| && value < Pow2(shift) && shift % 7 == 0
    requires ReadFrom(buf, pos, shift, value).Some?
    ensures ReadFrom(buf, pos, shift, value).value.value < U64
    decreases |buf| - pos
  {
    hide Pow2;
    var x := buf[pos] % 128;
    GroupFits(x, shift, value);
    if buf[pos] >= 128 {
      ReadFits(buf, pos + 1, shift + 7, value + (x * Pow2(shift)) % U64);
    }
  }

  /** Adding seven bits at a shift below 64 keeps the sum within 64 bits, and within the bits read so far. */
  lemma GroupFits(x: nat, shift: nat, value: nat)
    requires x < 128 && shift <= 63 && value < Pow2(shift)
    ensures value + (x * Pow2(shift)) % U64 < U64
    ensures value + (x * Pow2(shift)) % U64 < Pow2(shift + 7)
  {
    hide Pow2;
    var p := Pow2(shift);
    Pow2Is();
    Pow2Add(shift, 7);
    Pow2Add(shift, 64 - shift);
    ShiftedBits(x, p, Pow2(64 - shift));
    ModAtMost(x * p);
    assert x * p + p <= 128 * p by { Distribute(x, 1, p); MulMono(x + 1, 128, p); }
  }

  lemma ModAtMost(x: nat)
    ensures x % U64 <= x
  {
  }

  lemma MulMono(a: nat, b: nat, p: nat)
    requires a <= b
    ensures a * p <= b * p
  {
  }

  /** (x * p) mod (p * q) leaves room for another p. */
  lemma ShiftedBits(x: nat, p: nat, q: nat)
    requires p >= 1 && q >= 1 && p * q == U64
    ensures (x * p) % U64 + p <= U64 && (x * p) % U64 == (x % q) * p
  {
    var d, r := x / q, x % q;
    assert x == d * q + r;
    assert x * p == d * (p * q) + r * p by {
      Distribute(d * q, r, p);
      assert (d * q) * p == d * (p * q);
    }
    assert r * p + p <= q * p by { Distribute(r, 1, p); MulMono(r + 1, q, p); }
    assert (x * p) % U64 == r * p by { ModOf(d, r * p); }
  }

  lemma ModOf(d: nat, r: nat)
    requires r < U64
    ensures (d * U64 + r) % U64 == r
  {
  }

  // ---- Bitwise or ----

  function BitOr(a: nat, b: nat): nat
    decreases a + b
  {
    if a == 0 then b
    else if b == 0 then a
    else (if a % 2 == 1 || b % 2 == 1 then 1 else 0) + 2 * BitOr(a / 2, b / 2)
  }

  /** Or of a number below 2^k with a multiple of 2^k is their sum. */
  lemma {:induction false} OrDisjoint(a: nat, m: nat, k: nat)
    requires a < Pow2(k)
    ensures BitOr(a, m * Pow2(k)) == a + m * Pow2(k)
    decreases k
  {
    if k > 0 {
      var half := m * Pow2(k - 1);
      DoubleTimes(m, Pow2(k - 1));
      assert m * Pow2(k) == 2 * half;
      OrDisjoint(a / 2, m, k - 1);
      assert (2 * half) / 2 == half && (2 * half) % 2 == 0;
    }
  }

  lemma DoubleTimes(m: nat, p: nat)
    ensures m * (2 * p) == 2 * (m * p)
  {
  }

  /** Seven bits shifted past those already read: OR-ing them in adds them. */
  lemma OrIsSum(value: nat, x: nat, shift: nat)
    requires shift <= 63 && value < Pow2(shift)
    ensures BitOr(value, (x * Pow2(shift)) % U64) == value + (x * Pow2(shift)) % U64
  {
    hide Pow2, BitOr;
    Pow2Is();
    Pow2Add(shift, 64 - shift);
    ShiftedBits(x, Pow2(shift), Pow2(64 - shift));
    OrDisjoint(value, x % Pow2(64 - shift), shift);
  }
}
