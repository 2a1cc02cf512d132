/**
 The ring of recently seen message keys (components/cap_im_platform/src/cap_im_qq.c, lines 133-169;
 the WeChat client has the same, components/cap_im_platform/src/cap_im_wechat.c, lines 235-271).
 A key is the 64-bit hash of a message id, and an id the bytes before its terminator. The ring
 starts out all zero.
 Main results: SeenIff, AcceptedStaysRejected, SpacedOut, ZeroKey, ZeroIdDropped.
 */
module DedupRing {
  import opened Common

  const SIZE := 64
  const BASIS: bv64 := 1469598103934665603

  type Key = bv64
  type Id = seq<bv8>

  // ---- Keys ----

  /** One turn of the hash: the byte is XORed in and the product wraps at 64 bits. */
  function Mix(h: Key, b: bv8): Key { Times(h ^ (b as bv64)) }

  function Times(x: Key): Key { x * 1099511628211 }

  function Hash(id: Id): Key {
    if id == [] then BASIS else Mix(Hash(id[..|id| - 1]), id[|id| - 1])
  }

  /** The hashing loop; a missing id has the hash of the empty one. */
  method HashOf(text: Option<Id>) returns (hash: Key)
    ensures hash == if text.None? then BASIS else Hash(text.value)
  {
    hash := BASIS;
    if text.None? {
      return;
    }
    var id := text.value;
    for i := 0 to |id|
      invariant hash == Hash(id[..i])
    {
      assert id[..i + 1][..i] == id[..i];
      hash := Mix(hash, id[i]);
    }
    assert id[..|id|] == id;
  }

  /** FNV-1a with the code's own basis: each byte is mixed in, from the first to the last. */
  lemma HashIs(id: Id, b: bv8)
    ensures Hash([]) == 1469598103934665603 && Hash(id + [b]) == Mix(Hash(id), b)
  {
    hide Mix;
    assert (id + [b])[..|id|] == id;
  }

  /** Mixing in is XOR, then multiplication modulo 2^64. */
  lemma MixIs(h: Key, b: bv8)
    ensures Mix(h, b) == (h ^ (b as bv64)) * 1099511628211
  {
  }

  /** An id has the hash zero exactly when its last byte is the hash of what comes before it. */
  lemma HashZeroIff(id: Id)
    requires id != []
    ensures Hash(id) == 0 <==> Hash(id[..|id| - 1]) == id[|id| - 1] as bv64
  {
    hide Mix;
    MixZero(Hash(id[..|id| - 1]), id[|id| - 1]);
  }

  lemma MixZero(h: Key, b: bv8)
    ensures Mix(h, b) == 0 <==> h == b as bv64
  {
    hide Times;
    OddProduct(h ^ (b as bv64));
    XorZero(h, b as bv64);
  }

  lemma OddProduct(x: bv64)
    ensures Times(x) == 0 <==> x == 0
  {
  }

  lemma XorZero(x: bv64, y: bv64)
    ensures x ^ y == 0 <==> x == y
  {
  }

  /** The bytes of "j-sECsu2660-". */
  const ZERO_ID: Id := [106, 45, 115, 69, 67, 115, 117, 50, 54, 54, 48, 45]

  lemma ZeroIdHash()
    ensures Hash(ZERO_ID) == 0
  {
    hide Mix;
    HashPrefix(ZERO_ID);
    assert ZERO_ID[..0] == [] && ZERO_ID[..12] == ZERO_ID;
    assert ZERO_ID[0] == 106 && ZERO_ID[1] == 45 && ZERO_ID[2] == 115 && ZERO_ID[3] == 69 && ZERO_ID[4] == 67
        && ZERO_ID[5] == 115 && ZERO_ID[6] == 117 && ZERO_ID[7] == 50 && ZERO_ID[8] == 54 && ZERO_ID[9] == 54
        && ZERO_ID[10] == 48 && ZERO_ID[11] == 45;
    ZeroIdMixed();
  }

  lemma ZeroIdMixed()
    ensures Mix(Mix(Mix(Mix(Mix(Mix(Mix(Mix(Mix(Mix(Mix(Mix(BASIS,
              106), 45), 115), 69), 67), 115), 117), 50), 54), 54), 48), 45) == 0
  {
  }

  lemma HashPrefix(id: Id)
    ensures forall k | 0 <= k < |id| :: Hash(id[..k + 1]) == Mix(Hash(id[..k]), id[k])
  {
    forall k | 0 <= k < |id| ensures Hash(id[..k + 1]) == Mix(Hash(id[..k]), id[k]) {
      assert id[..k + 1][..k] == id[..k];
    }
  }

  // ---- The window ----

  /** The keys in the ring, oldest first, after these keys were accepted. */
  function Window(accepted: seq<Key>): (w: seq<Key>)
    ensures |w| == SIZE
  {
    (seq(SIZE, _ => 0) + accepted)[|accepted|..]
  }

  /** Seen before, as the code decides it. */
  predicate Seen(accepted: seq<Key>, key: Key) { key in Window(accepted) }

  /** The keys accepted out of a stream of messages, in order. */
  function Accepted(keys: seq<Key>): seq<Key> {
    if keys == [] then []
    else
      var before := Accepted(keys[..|keys| - 1]);
      var key := keys[|keys| - 1];
      if Seen(before, key) then before else before + [key]
  }

  /** The last 64 accepted keys, or all of them while there are fewer. */
  function Recent(accepted: seq<Key>): seq<Key> {
    if |accepted| <= 64 then accepted else accepted[|accepted| - 64..]
  }

  /** A non-zero key is rejected if and only if it is among the last 64 accepted ones: the zeros do not matter. */
  lemma SeenIff(accepted: seq<Key>, key: Key)
    requires key != 0
    ensures Seen(accepted, key) <==> key in Recent(accepted)
  {
    var all := seq(SIZE, _ => 0) + accepted;
    if |accepted| <= SIZE {
      assert Window(accepted) == seq(SIZE - |accepted|, _ => 0) + accepted;
    } else {
      assert Window(accepted) == Recent(accepted);
    }
  }

  /** Zero is the exception: it counts as seen until 64 other keys have been accepted. */
  lemma ZeroKey(accepted: seq<Key>)
    ensures Seen(accepted, 0) <==> |accepted| < 64 || 0 in Recent(accepted)
  {
    if |accepted| < SIZE {
      assert Window(accepted)[0] == 0;
    } else {
      assert Window(accepted) == Recent(accepted);
    }
  }

  /** A message with this id counts as seen until 64 messages have been accepted, or while it is recent. */
  lemma ZeroIdDropped(accepted: seq<Key>)
    ensures Seen(accepted, Hash(ZERO_ID)) <==> |accepted| < 64 || Hash(ZERO_ID) in Recent(accepted)
  {
    ZeroIdHash();
    ZeroKey(accepted);
  }

  /** So a stream of messages that all have the key zero is rejected from its first message on. */
  lemma {:induction false} ZerosRejected(keys: seq<Key>)
    requires forall i | 0 <= i < |keys| :: keys[i] == 0
    ensures Accepted(keys) == []
  {
    if keys != [] {
      ZerosRejected(keys[..|keys| - 1]);
      ZeroKey([]);
    }
  }

  /** The k-th accepted key is rejected while fewer than 64 keys have been accepted after it. */
  lemma AcceptedStaysRejected(accepted: seq<Key>, k: nat)
    requires k < |accepted| && |accepted| - (k + 1) < 64
    ensures Seen(accepted, accepted[k])
  {
    assert Window(accepted)[SIZE + k - |accepted|] == accepted[k];
  }

  /** Out of any stream, two acceptances of one key have at least 64 acceptances of other keys between them. */
  lemma {:induction false} SpacedOut(keys: seq<Key>, i: nat, j: nat)
    requires i < j < |Accepted(keys)| && Accepted(keys)[i] == Accepted(keys)[j]
    ensures j - i > 64
    decreases |keys|
  {
    var front := keys[..|keys| - 1];
    if j < |Accepted(front)| {
      SpacedOut(front, i, j);
    } else if j - i <= SIZE {
      AcceptedStaysRejected(Accepted(front), i);
    }
  }

  /** So the non-zero keys in the ring are pairwise distinct. */
  lemma WindowDistinct(keys: seq<Key>, i: nat, j: nat)
    requires i < j < 64 && Window(Accepted(keys))[j] != 0
    ensures Window(Accepted(keys))[i] != Window(Accepted(keys))[j]
  {
    var accepted := Accepted(keys);
    if Window(accepted)[i] == Window(accepted)[j] {
      assert Window(accepted)[i] == accepted[|accepted| + i - SIZE];
      assert Window(accepted)[j] == accepted[|accepted| + j - SIZE];
      SpacedOut(keys, |accepted| + i - SIZE, |accepted| + j - SIZE);
    }
  }

  /** A message is accepted at its turn exactly when its key is not among the last 64 accepted before. */
  lemma AcceptedAtTurn(keys: seq<Key>, n: nat)
    requires n < |keys| && keys[n] != 0
    ensures Accepted(keys[..n + 1]) == if keys[n] in Recent(Accepted(keys[..n])) then Accepted(keys[..n])
                                       else Accepted(keys[..n]) + [keys[n]]
  {
    assert keys[..n + 1][..n] == keys[..n];
    SeenIff(Accepted(keys[..n]), keys[n]);
  }

  // ---- The ring ----

  class Ring {
    var keys: array<Key>
    var next: nat
    ghost var accepted: seq<Key>

    ghost predicate Valid()
      reads this, keys
    {
      && keys.Length == SIZE
      && next == |accepted| % SIZE
      && forall i | 0 <= i < SIZE :: keys[(|accepted| + i) % SIZE] == Window(accepted)[i]
    }

    constructor ()
      ensures Valid() && accepted == [] && fresh(keys)
    {
      keys := new Key[SIZE](_ => 0);
      next := 0;
      accepted := [];
    }

    static lemma NextSlot(n: nat)
      ensures (n % SIZE + 1) % SIZE == (n + 1) % SIZE
    {
    }

    lemma SlotOf(s: nat) returns (i: nat)
      requires Valid() && s < SIZE
      ensures i < SIZE && (|accepted| + i) % SIZE == s && keys[s] == Window(accepted)[i]
    {
      hide Window;
      i := TurnOf(|accepted|, s);
    }

    static lemma TurnOf(n: nat, s: nat) returns (i: nat)
      requires s < SIZE
      ensures i < SIZE && (n + i) % SIZE == s
    {
      i := (s + SIZE - n % SIZE) % SIZE;
    }

    lemma NotSeen(key: Key)
      requires Valid() && forall t | 0 <= t < SIZE :: keys[t] != key
      ensures !Seen(accepted, key)
    {
      forall i | 0 <= i < SIZE ensures Window(accepted)[i] != key {
        assert keys[(|accepted| + i) % SIZE] == Window(accepted)[i];
      }
    }

    /** After key is stored in slot next, the ring holds the window moved on by one. */
    lemma Recorded(was: seq<Key>, key: Key, n: nat)
      requires |was| == SIZE && n == |accepted|
      requires forall i | 0 <= i < SIZE :: was[(n + i) % SIZE] == Window(accepted)[i]
      ensures forall i | 0 <= i < SIZE ::
                was[n % SIZE := key][(n + 1 + i) % SIZE] == Window(accepted + [key])[i]
    {
      forall i | 0 <= i < SIZE
        ensures was[n % SIZE := key][(n + 1 + i) % SIZE] == Window(accepted + [key])[i]
      {
        if i == SIZE - 1 {
          assert (n + 1 + i) % SIZE == n % SIZE;
        } else {
          assert (n + 1 + i) % SIZE != n % SIZE;
          assert Window(accepted + [key])[i] == Window(accepted)[i + 1];
        }
      }
    }

    /** The search loop. */
    method Holds(key: Key) returns (found: bool)
      requires Valid()
      ensures found == Seen(accepted, key)
    {
      hide Window;
      for s := 0 to SIZE
        invariant forall t | 0 <= t < s :: keys[t] != key
      {
        if keys[s] == key {
          var i := SlotOf(s);
          return true;
        }
      }
      NotSeen(key);
      return false;
    }

    /** Whether the message was seen; if not, it is recorded. A missing or empty id is never recorded. */
    method CheckAndRecord(messageId: Option<Id>) returns (seen: bool)
      requires Valid()
      modifies this`next, this`accepted, keys
      ensures Valid()
      ensures messageId.None? || messageId.value == [] ==> !seen && accepted == old(accepted)
      ensures messageId.Some? && messageId.value != [] ==>
                var key := Hash(messageId.value);
                && seen == Seen(old(accepted), key)
                && accepted == if seen then old(accepted) else old(accepted) + [key]
    {
      if messageId.None? || messageId.value == [] {
        return false;
      }
      hide Window, Hash;
      var key := HashOf(messageId);
      seen := Holds(key);
      if seen {
        return;
      }
      Record(key);
      return false;
    }

    method Record(key: Key)
      requires Valid()
      modifies this`next, this`accepted, keys
      ensures Valid() && accepted == old(accepted) + [key]
    {
      hide Window;
      ghost var was := keys[..];
      Recorded(was, key, |accepted|);
      NextSlot(|accepted|);
      keys[next] := key;
      assert keys[..] == was[next := key];
      next := (next + 1) % SIZE;
      accepted := accepted + [key];
    }
  }

  /** A QQ client that has just started takes its first message, one with this id, for a duplicate. */
  method FirstMessageLost() returns (seen: bool)
    ensures seen
  {
    var ring := new Ring();
    ZeroIdDropped([]);
    seen := ring.CheckAndRecord(Some(ZERO_ID));
  }
}
