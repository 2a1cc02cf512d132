/**
 Padding around a block cipher in electronic-codebook mode
 (components/cap_im_platform/src/cap_im_wechat.c, lines 910-985, 1953 and 1996-2002; RFC 5652,
 section 6.3). The cipher itself is any permutation of 16-byte blocks.
 Main results: EncryptDecrypts, DecryptsIffEncrypted, AnnouncedSize.
 */
module BlockPadding {
  import opened Common

  const BLOCK := 16

  type Block = b: seq<byte> | |b| == BLOCK witness seq(BLOCK, _ => 0)

  /** One key's two directions. */
  datatype Cipher = Cipher(enc: Block -> Block, dec: Block -> Block)

  ghost predicate Permutation(c: Cipher) {
    && (forall b: Block :: c.dec(c.enc(b)) == b)
    && (forall b: Block :: c.enc(c.dec(b)) == b)
  }

  /** Always at least one byte of padding: a whole block when the input ends at a block boundary. */
  function PaddedLength(n: nat): (m: nat)
    ensures m % BLOCK == 0 && n < m <= n + BLOCK
  {
    (n / BLOCK + 1) * BLOCK
  }

  function Pad(p: seq<byte>): seq<byte> {
    var pad := PaddedLength(|p|) - |p|;
    p + seq(pad, _ => pad as byte)
  }

  /** The last byte tells how many bytes to drop; all of them must say so. */
  function Unpad(s: seq<byte>): Option<seq<byte>> {
    if s == [] then None
    else
      var pad := s[|s| - 1];
      if pad == 0 || pad > BLOCK || pad > |s| then None
      else if forall k | |s| - pad <= k < |s| :: s[k] == pad then Some(s[..|s| - pad])
      else None
  }

  function MapBlocks(f: Block -> Block, s: seq<byte>): (r: seq<byte>)
    requires |s| % BLOCK == 0
    ensures |r| == |s|
  {
    if s == [] then [] else f(s[..BLOCK]) + MapBlocks(f, s[BLOCK..])
  }

  function Encrypt(c: Cipher, p: seq<byte>): seq<byte> { MapBlocks(c.enc, Pad(p)) }

  function Decrypt(c: Cipher, x: seq<byte>): Option<seq<byte>> {
    if |x| % BLOCK != 0 then None else Unpad(MapBlocks(c.dec, x))
  }

  // ---- Padding alone ----

  lemma PadUnpads(p: seq<byte>)
    ensures Unpad(Pad(p)) == Some(p)
  {
    var s := Pad(p);
    var pad := PaddedLength(|p|) - |p|;
    assert s[..|s| - pad] == p;
  }

  lemma UnpadPads(s: seq<byte>)
    requires |s| % BLOCK == 0 && Unpad(s).Some?
    ensures Pad(Unpad(s).value) == s
  {
    var p := Unpad(s).value;
    var pad := s[|s| - 1];
    assert PaddedLength(|p|) == |s|;
    assert Pad(p) == s;
  }

  // ---- Blocks ----

  /** Undoing a map block by block. */
  lemma {:induction false} MapUndone(f: Block -> Block, g: Block -> Block, s: seq<byte>)
    requires |s| % BLOCK == 0 && forall b: Block :: g(f(b)) == b
    ensures MapBlocks(g, MapBlocks(f, s)) == s
  {
    if s != [] {
      var first: Block := f(s[..BLOCK]);
      var rest := MapBlocks(f, s[BLOCK..]);
      MapUndone(f, g, s[BLOCK..]);
      assert (first + rest)[..BLOCK] == first && (first + rest)[BLOCK..] == rest;
      assert s == s[..BLOCK] + s[BLOCK..];
    }
  }

  // ---- The pair ----

  lemma EncryptDecrypts(c: Cipher, p: seq<byte>)
    requires Permutation(c)
    ensures Decrypt(c, Encrypt(c, p)) == Some(p)
  {
    MapUndone(c.enc, c.dec, Pad(p));
    PadUnpads(p);
  }

  /** A ciphertext decrypts if and only if it is some plaintext's encryption, and then to that plaintext. */
  lemma DecryptsIffEncrypted(c: Cipher, x: seq<byte>)
    requires Permutation(c)
    ensures Decrypt(c, x).Some? <==> exists p :: Encrypt(c, p) == x
    ensures Decrypt(c, x).Some? ==> Encrypt(c, Decrypt(c, x).value) == x
  {
    if Decrypt(c, x).Some? {
      UnpadPads(MapBlocks(c.dec, x));
      MapUndone(c.dec, c.enc, x);
      assert Encrypt(c, Decrypt(c, x).value) == x;
    }
    if exists p :: Encrypt(c, p) == x {
      var p :| Encrypt(c, p) == x;
      EncryptDecrypts(c, p);
    }
  }

  /** The size announced to the server before the upload is the size of what is then uploaded. */
  lemma AnnouncedSize(c: Cipher, p: seq<byte>)
    ensures |Encrypt(c, p)| == (|p| / 16 + 1) * 16
    ensures |p| < |Encrypt(c, p)| <= |p| + 16
  {
  }

  // ---- The padding, byte by byte ----

  /** s ends in k bytes that all equal k, for a k from 1 to 16. */
  ghost predicate EndsIn(s: seq<byte>, k: nat) {
    1 <= k <= 16 && k <= |s| && forall i | |s| - k <= i < |s| :: s[i] == k
  }

  lemma UnpadIs(s: seq<byte>, p: seq<byte>)
    ensures Unpad(s) == Some(p) <==> exists k :: EndsIn(s, k) && p == s[..|s| - k]
  {
    if Unpad(s) == Some(p) {
      assert EndsIn(s, s[|s| - 1]);
    }
    if k :| EndsIn(s, k) && p == s[..|s| - k] {
      assert s[|s| - 1] == k;
    }
  }

  lemma PadIs(p: seq<byte>)
    ensures var k := 16 - |p| % 16;
      Pad(p) == p + seq(k, _ => k) && |Pad(p)| % 16 == 0 && EndsIn(Pad(p), k) && p == Pad(p)[..|Pad(p)| - k]
  {
  }

  /** Block k of the result is the image of block k. */
  lemma {:induction false} MapBlocksAt(f: Block -> Block, s: seq<byte>, k: nat)
    requires |s| % 16 == 0 && 16 * k + 16 <= |s|
    ensures MapBlocks(f, s)[16 * k..16 * k + 16] == f(s[16 * k..16 * k + 16])
  {
    var rest := s[BLOCK..];
    if k == 0 {
      assert MapBlocks(f, s)[..16] == f(s[..16]);
    } else {
      MapBlocksAt(f, rest, k - 1);
      assert rest[16 * (k - 1)..16 * (k - 1) + 16] == s[16 * k..16 * k + 16];
      assert MapBlocks(f, s)[16 * k..16 * k + 16] == MapBlocks(f, rest)[16 * (k - 1)..16 * (k - 1) + 16];
    }
  }

  /** Under any ciphertext lies the plaintext followed by k bytes k, up to the next multiple of 16. */
  lemma EncryptIs(c: Cipher, p: seq<byte>) returns (k: nat)
    requires Permutation(c)
    ensures |Encrypt(c, p)| == |p| + k && (|p| + k) % 16 == 0
    ensures var s := MapBlocks(c.dec, Encrypt(c, p));
      1 <= k <= 16 && |s| == |p| + k && s[..|p|] == p && forall i | |p| <= i < |p| + k :: s[i] == k
  {
    k := 16 - |p| % 16;
    PadIs(p);
    MapUndone(c.enc, c.dec, Pad(p));
  }

  /** A ciphertext decrypts to p exactly when its length is a multiple of 16 and under it lies p with such a padding. */
  lemma DecryptIs(c: Cipher, x: seq<byte>, p: seq<byte>)
    ensures Decrypt(c, x) == Some(p) <==>
              |x| % 16 == 0 && exists k :: EndsIn(MapBlocks(c.dec, x), k) && p == MapBlocks(c.dec, x)[..|x| - k]
  {
    if |x| % 16 == 0 {
      UnpadIs(MapBlocks(c.dec, x), p);
    }
  }

  // ---- The code ----

  lemma {:induction false} MapSnoc(f: Block -> Block, s: seq<byte>, b: Block)
    requires |s| % BLOCK == 0
    ensures MapBlocks(f, s + b) == MapBlocks(f, s) + f(b)
  {
    if s == [] {
      assert s + b == b && b[..BLOCK] == b && b[BLOCK..] == [];
      assert MapBlocks(f, []) == [];
    } else {
      assert (s + b)[..BLOCK] == s[..BLOCK] && (s + b)[BLOCK..] == s[BLOCK..] + b;
      MapSnoc(f, s[BLOCK..], b);
    }
  }

  /** One call of the driver on the block at offset i, in place. */
  method CryptBlock(buffer: array<byte>, i: nat, f: Block -> Block)
    requires i + BLOCK <= buffer.Length
    modifies buffer
    ensures buffer[..] == old(buffer[..i]) + f(old(buffer[i..i + BLOCK])) + old(buffer[i + BLOCK..])
  {
    var out := f(buffer[i..i + BLOCK]);
    forall j | 0 <= j < BLOCK {
      buffer[i + j] := out[j];
    }
  }

  /** What is left to do shrinks by the block just done. */
  lemma BlockDone(f: Block -> Block, was: seq<byte>, i: nat, now: seq<byte>)
    requires i % BLOCK == 0 && i + BLOCK <= |was| && now == MapBlocks(f, was[..i]) + was[i..]
    ensures now[i..i + BLOCK] == was[i..i + BLOCK]
    ensures now[..i] + f(now[i..i + BLOCK]) + now[i + BLOCK..]
         == MapBlocks(f, was[..i + BLOCK]) + was[i + BLOCK..]
  {
    var block := was[i..i + BLOCK];
    assert now[i..i + BLOCK] == block;
    assert now[..i] == MapBlocks(f, was[..i]) && now[i + BLOCK..] == was[i + BLOCK..];
    MapSnoc(f, was[..i], block);
    assert was[..i + BLOCK] == was[..i] + block;
  }

  /** One turn of the loop, on a buffer whose first i bytes are done. */
  method CryptTurn(buffer: array<byte>, i: nat, f: Block -> Block, ghost was: seq<byte>)
    requires |was| == buffer.Length && i % BLOCK == 0 && i + BLOCK <= buffer.Length
    requires buffer[..] == MapBlocks(f, was[..i]) + was[i..]
    modifies buffer
    ensures buffer[..] == MapBlocks(f, was[..i + BLOCK]) + was[i + BLOCK..]
  {
    hide MapBlocks;
    ghost var now := buffer[..];
    BlockDone(f, was, i, now);
    assert now[..i] == buffer[..i] && now[i..i + BLOCK] == buffer[i..i + BLOCK];
    assert now[i + BLOCK..] == buffer[i + BLOCK..];
    CryptBlock(buffer, i, f);
  }

  lemma BlockInRange(k: nat, length: nat)
    requires length % BLOCK == 0
    ensures BLOCK * k < length <==> k < length / BLOCK
    ensures BLOCK * k < length ==> BLOCK * k + BLOCK <= length && BLOCK * k % BLOCK == 0
  {
  }

  /** The cipher loop over the buffer, one block at a time; it stops at a block the driver refuses. */
  method CryptBlocks(buffer: array<byte>, f: Block -> Block, accepts: nat -> bool) returns (ok: bool)
    requires buffer.Length % BLOCK == 0
    modifies buffer
    ensures ok <==> forall k: nat | k < buffer.Length / BLOCK :: accepts(k)
    ensures ok ==> buffer[..] == MapBlocks(f, old(buffer[..]))
  {
    hide MapBlocks;
    ghost var was := buffer[..];
    MapNothing(f, was);
    var i, k := 0, 0;
    while i < buffer.Length
      invariant i == BLOCK * k <= buffer.Length
      invariant forall j: nat | j < k :: accepts(j)
      invariant buffer[..] == MapBlocks(f, was[..i]) + was[i..]
      decreases buffer.Length - i
    {
      BlockInRange(k, buffer.Length);
      if !accepts(k) {
        return false;
      }
      CryptTurn(buffer, i, f, was);
      i, k := i + BLOCK, k + 1;
    }
    assert was[..i] == was && was[i..] == [];
    return true;
  }

  lemma MapNothing(f: Block -> Block, s: seq<byte>)
    ensures MapBlocks(f, s[..0]) + s[0..] == s
  {
  }

  /** The last byte decides which padding it can be. */
  lemma EndsOnce(s: seq<byte>)
    requires s != []
    ensures forall k :: EndsIn(s, k) ==> k == s[|s| - 1]
    ensures Unpad(s) == if EndsIn(s, s[|s| - 1]) then Some(s[..|s| - s[|s| - 1]]) else None
  {
  }

  /** The padding check, from the last byte backwards. */
  method CheckPadding(buffer: array<byte>) returns (length: Option<nat>)
    requires buffer.Length > 0
    ensures length.Some? ==> length.value < buffer.Length
    ensures Unpad(buffer[..]) == if length.Some? then Some(buffer[..length.value]) else None
    ensures length.Some? <==> exists k :: EndsIn(buffer[..], k)
    ensures forall k :: EndsIn(buffer[..], k) ==> length == Some(buffer.Length - k)
  {
    hide Unpad;
    EndsOnce(buffer[..]);
    var n := buffer.Length;
    var pad := buffer[n - 1];
    if pad == 0 || pad > BLOCK || pad > n {
      return None;
    }
    for i := 0 to pad
      invariant forall k | n - i <= k < n :: buffer[k] == pad
    {
      if buffer[n - 1 - i] != pad {
        assert buffer[..][n - 1 - i] != pad;
        return None;
      }
    }
    return Some(n - pad);
  }

  /** Unmodelled: the padded length would wrap its 32 bits, or the code would look at the byte before its buffer. */
  datatype CryptError = CryptOk | BadSize | OutOfMemory | Failed | Unmodelled

  /** Padding the input would wrap the 32-bit length. */
  predicate PaddingWraps(input: seq<byte>, encrypt: bool) { encrypt && PaddedLength(|input|) >= WORD }

  predicate WrongSize(input: seq<byte>, encrypt: bool) { !encrypt && |input| % BLOCK != 0 }

  /** Key schedule and driver go along with every block of a buffer of this length. */
  predicate DriverWorks(keySet: bool, accepts: nat -> bool, length: nat) {
    keySet && forall k: nat | k < length / BLOCK :: accepts(k)
  }

  /**
   cap_im_wechat_aes_ecb_crypt with a 16-byte key. Each error has its exact cause; Failed is what is left:
   the key or a block is refused, or the padding is wrong.
   */
  method Crypt(input: seq<byte>, c: Cipher, encrypt: bool, canAlloc: bool, keySet: bool, accepts: nat -> bool)
    returns (err: CryptError, out: seq<byte>)
    requires |input| < WORD
    ensures err == Unmodelled <==>
              PaddingWraps(input, encrypt) || (!encrypt && input == [] && canAlloc && keySet)
    ensures err == BadSize <==> WrongSize(input, encrypt)
    ensures err == OutOfMemory <==> !PaddingWraps(input, encrypt) && !WrongSize(input, encrypt) && !canAlloc
    ensures err == CryptOk <==>
              && !PaddingWraps(input, encrypt) && canAlloc
              && DriverWorks(keySet, accepts, if encrypt then PaddedLength(|input|) else |input|)
              && (encrypt || Decrypt(c, input).Some?)
    ensures err == CryptOk ==> if encrypt then out == Encrypt(c, input) else Decrypt(c, input) == Some(out)
    ensures err == CryptOk && encrypt ==>
              out == MapBlocks(c.enc, input + seq(16 - |input| % 16, _ => (16 - |input| % 16) as byte))
    ensures !encrypt && |input| % 16 == 0 && canAlloc && DriverWorks(keySet, accepts, |input|) && input != [] ==>
              var plain := MapBlocks(c.dec, input);
              && (err == CryptOk <==> exists k :: EndsIn(plain, k))
              && forall k :: EndsIn(plain, k) ==> out == plain[..|plain| - k]
  {
    if encrypt {
      PadIs(input);
    } else if |input| % BLOCK == 0 && input != [] {
      EndsOnce(MapBlocks(c.dec, input));
    }
    hide Pad, Unpad;
    out := [];
    if PaddingWraps(input, encrypt) {
      return Unmodelled, out;
    }
    var padded := if encrypt then PaddedLength(|input|) else |input|;
    if padded % BLOCK != 0 {
      return BadSize, out;
    }
    if !canAlloc {
      return OutOfMemory, out;
    }
    var buffer := new byte[padded](_ => 0);
    forall i | 0 <= i < |input| {
      buffer[i] := input[i];
    }
    if encrypt {
      var pad: byte := padded - |input|;
      forall i | |input| <= i < padded {
        buffer[i] := pad;
      }
      assert buffer[..] == input + seq(16 - |input| % 16, _ => (16 - |input| % 16) as byte);
    } else {
      assert buffer[..] == input;
    }
    if !keySet {
      return Failed, out;
    }
    var ok := CryptBlocks(buffer, if encrypt then c.enc else c.dec, accepts);
    if !ok {
      return Failed, out;
    }
    if encrypt {
      return CryptOk, buffer[..];
    }
    if input == [] {
      return Unmodelled, out;
    }
    var length := CheckPadding(buffer);
    if length.None? {
      return Failed, out;
    }
    return CryptOk, buffer[..length.value];
  }
}
