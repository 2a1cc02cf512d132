/**
 Reassembly of inbound WebSocket data into frames (components/cap_im_platform/src/cap_im_qq.c,
 lines 192-278). A payload larger than the transport's buffer arrives as several events that carry
 the length of the whole payload and the offset of their part; the transport never reports a part
 that ends past its payload.
 Main results: StreamDelivers, NothingInvented, Inbound.HandleData.
 */
module QqReassembly {
  import opened Common

  const TEXT := 1

  /** One data event; data is None for a null pointer, otherwise |data| is data_len. */
  datatype Event = Event(opCode: int, data: Option<seq<byte>>, payloadLength: int, offset: int)

  /** A payload in progress: its announced length, and what has arrived of it. */
  datatype Partial = Partial(total: nat, got: seq<byte>)

  /** Whether growing the buffer, copying a frame, and the queue each have room when asked. */
  datatype Luck = Luck(grow: bool, copy: bool, queue: bool)

  const PLENTY := Luck(true, true, true)

  datatype Result = Result(err: Err, partial: Option<Partial>, queued: seq<seq<byte>>)

  predicate Whole(e: Event)
    requires e.data.Some?
  {
    e.payloadLength <= 0 || (e.offset == 0 && e.payloadLength == |e.data.value|)
  }

  /** The transport's promise about a part of a larger payload. */
  predicate WithinPayload(e: Event) {
    e.data.Some? && !Whole(e) ==> 0 <= e.offset && e.offset + |e.data.value| <= e.payloadLength
  }

  function Enqueue(partial: Option<Partial>, frame: seq<byte>, luck: Luck): Result {
    if luck.copy && luck.queue then Result(Err.Ok, partial, [frame]) else Result(NoMem, partial, [])
  }

  /** What one event does: the payload in progress before and after, and the frame queued, if any. */
  function Feed(partial: Option<Partial>, e: Event, ready: bool, luck: Luck): Result {
    if e.opCode != TEXT || e.data.None? || e.data.value == [] then Result(InvalidArg, partial, [])
    else if !ready then Result(InvalidState, partial, [])
    else if Whole(e) then Enqueue(partial, e.data.value, luck)
    else if e.offset == 0 then
      Extend(Partial(e.payloadLength, []), e.data.value, luck)
    else if partial.None? || partial.value.total != e.payloadLength || |partial.value.got| != e.offset then
      Result(Fail, None, [])
    else Extend(partial.value, e.data.value, luck.(grow := true))
  }

  function Extend(p: Partial, data: seq<byte>, luck: Luck): Result {
    var got := p.got + data;
    if !luck.grow then Result(NoMem, None, [])
    else if |got| < p.total then Result(Err.Ok, Some(Partial(p.total, got)), [])
    else if |got| != p.total then Result(Fail, None, [])
    else Enqueue(None, got, luck)
  }

  /** A run of events when nothing runs out: the payload in progress at the end, and every frame queued. */
  function FeedAll(partial: Option<Partial>, es: seq<Event>): (Option<Partial>, seq<seq<byte>>) {
    if es == [] then (partial, [])
    else
      var (p, frames) := FeedAll(partial, es[..|es| - 1]);
      var r := Feed(p, es[|es| - 1], true, PLENTY);
      (r.partial, frames + r.queued)
  }

  /** What handling an event comes to; Overrun: the part does not fit the buffer with its terminator. */
  datatype Outcome = Done(err: Err) | Overrun

  /** The part would be written past a buffer of this size, which is grown first if it starts a payload. */
  predicate Overruns(partial: Option<Partial>, cap: nat, e: Event, ready: bool, luck: Luck) {
    && e.opCode == TEXT && e.data.Some? && e.data.value != [] && ready && !Whole(e)
    && if e.offset == 0 then
         (luck.grow || e.payloadLength < cap) && |e.data.value| >= Max(cap, e.payloadLength + 1)
       else
         && partial.Some? && partial.value.total == e.payloadLength && |partial.value.got| == e.offset
         && e.offset + |e.data.value| >= cap
  }

  // ---- Streams of complete and truncated payloads ----

  function Concat(pieces: seq<seq<byte>>): seq<byte> {
    if pieces == [] then [] else Concat(pieces[..|pieces| - 1]) + pieces[|pieces| - 1]
  }

  /** A payload and the pieces of it that arrived, in order from the first byte on. */
  datatype Transfer = Transfer(payload: seq<byte>, pieces: seq<seq<byte>>)

  ghost predicate ProperTransfer(t: Transfer) {
    && t.pieces != []
    && (forall piece | piece in t.pieces :: piece != [])
    && Concat(t.pieces) <= t.payload
  }

  predicate Complete(t: Transfer) { |Concat(t.pieces)| == |t.payload| }

  function EventOf(t: Transfer, k: nat): Event
    requires k < |t.pieces|
  {
    Event(1, Some(t.pieces[k]), |t.payload|, |Concat(t.pieces[..k])|)
  }

  /** The first k events of a transfer. */
  function EventsUpTo(t: Transfer, k: nat): seq<Event>
    requires k <= |t.pieces|
  {
    seq(k, i requires 0 <= i < k => EventOf(t, i))
  }

  function EventsOf(ts: seq<Transfer>): seq<Event> {
    if ts == [] then []
    else EventsOf(ts[..|ts| - 1]) + EventsUpTo(ts[|ts| - 1], |ts[|ts| - 1].pieces|)
  }

  function CompletePayloads(ts: seq<Transfer>): seq<seq<byte>> {
    if ts == [] then []
    else CompletePayloads(ts[..|ts| - 1])
         + if Complete(ts[|ts| - 1]) then [ts[|ts| - 1].payload] else []
  }

  /** What has arrived after k pieces is a prefix of the payload, and shorter than after k + 1. */
  lemma {:induction false} PrefixArrived(t: Transfer, k: nat)
    requires ProperTransfer(t) && k <= |t.pieces|
    ensures Concat(t.pieces[..k]) <= t.payload
    ensures k < |t.pieces| ==>
              && Concat(t.pieces[..k + 1]) == Concat(t.pieces[..k]) + t.pieces[k]
              && |Concat(t.pieces[..k])| < |Concat(t.pieces[..k + 1])| <= |t.payload|
    decreases |t.pieces| - k
  {
    if k == |t.pieces| {
      assert t.pieces[..k] == t.pieces;
    } else {
      PrefixArrived(t, k + 1);
      assert t.pieces[..k + 1][..k] == t.pieces[..k];
      assert t.pieces[k] in t.pieces;
    }
  }

  /** Before its last piece nothing is complete. */
  lemma {:induction false} NotYetComplete(t: Transfer, k: nat)
    requires ProperTransfer(t) && k < |t.pieces|
    ensures |Concat(t.pieces[..k])| < |Concat(t.pieces)|
    decreases |t.pieces| - k
  {
    PrefixArrived(t, k);
    if k + 1 == |t.pieces| {
      assert t.pieces[..k + 1] == t.pieces;
    } else {
      NotYetComplete(t, k + 1);
    }
  }

  lemma EventsWithin(t: Transfer, k: nat)
    requires ProperTransfer(t) && k <= |t.pieces|
    ensures forall e | e in EventsUpTo(t, k) :: WithinPayload(e)
  {
    forall i | 0 <= i < k ensures WithinPayload(EventOf(t, i)) {
      PrefixArrived(t, i);
    }
  }

  /** After k of its pieces a transfer is in progress; after all of them it is delivered if complete. */
  lemma {:induction false} TransferProgress(start: Option<Partial>, t: Transfer, k: nat)
    requires ProperTransfer(t) && 0 < k <= |t.pieces|
    ensures var (p, frames) := FeedAll(start, EventsUpTo(t, k));
      if |Concat(t.pieces[..k])| < |t.payload|
      then p == Some(Partial(|t.payload|, Concat(t.pieces[..k]))) && frames == []
      else frames == [t.payload]
    decreases k
  {
    var es := EventsUpTo(t, k);
    var before := EventsUpTo(t, k - 1);
    assert es[..|es| - 1] == before && es[|es| - 1] == EventOf(t, k - 1);
    PrefixArrived(t, k - 1);
    if k == 1 {
      assert t.pieces[..0] == [];
      FirstPiece(start, t);
    } else {
      TransferProgress(start, t, k - 1);
      NextPiece(t, k - 1);
    }
  }

  lemma FirstPiece(start: Option<Partial>, t: Transfer)
    requires ProperTransfer(t)
    ensures var r := Feed(start, EventOf(t, 0), true, PLENTY);
      if |Concat(t.pieces[..1])| < |t.payload|
      then r.partial == Some(Partial(|t.payload|, Concat(t.pieces[..1]))) && r.queued == []
      else r.queued == [t.payload]
  {
    PrefixArrived(t, 0);
    assert t.pieces[0] in t.pieces && t.pieces[..0] == [];
    PrefixArrived(t, 1);
    assert Concat(t.pieces[..1]) == t.pieces[0];
    SameLength(t.pieces[0], t.payload);
  }

  lemma NextPiece(t: Transfer, k: nat)
    requires ProperTransfer(t) && 0 < k < |t.pieces|
    ensures var r := Feed(Some(Partial(|t.payload|, Concat(t.pieces[..k]))), EventOf(t, k), true, PLENTY);
      if |Concat(t.pieces[..k + 1])| < |t.payload|
      then r.partial == Some(Partial(|t.payload|, Concat(t.pieces[..k + 1]))) && r.queued == []
      else r.queued == [t.payload]
  {
    PrefixArrived(t, k);
    PrefixArrived(t, k - 1);
    PrefixArrived(t, k + 1);
    assert t.pieces[k] in t.pieces;
    SameLength(Concat(t.pieces[..k + 1]), t.payload);
  }

  lemma SameLength(a: seq<byte>, b: seq<byte>)
    requires a <= b
    ensures |a| == |b| ==> a == b
  {
    assert a == b[..|a|];
  }

  lemma {:induction false} FeedConcat(start: Option<Partial>, a: seq<Event>, b: seq<Event>)
    ensures var (p, frames) := FeedAll(start, a);
      var (q, more) := FeedAll(p, b);
      FeedAll(start, a + b) == (q, frames + more)
  {
    if b == [] {
      assert a + b == a;
      assert FeedAll(start, a).1 + [] == FeedAll(start, a).1;
    } else {
      var front := b[..|b| - 1];
      assert (a + b)[..|a + b| - 1] == a + front && (a + b)[|a + b| - 1] == b[|b| - 1];
      FeedConcat(start, a, front);
      var (p, frames) := FeedAll(start, a);
      var (q, more) := FeedAll(p, front);
      var last := Feed(q, b[|b| - 1], true, PLENTY).queued;
      assert (frames + more) + last == frames + (more + last);
    }
  }

  /**
   Whatever was in progress before, a stream of transfers, each complete or cut short, queues exactly
   the complete payloads, byte for byte and in order.
   */
  lemma {:induction false} StreamDelivers(start: Option<Partial>, ts: seq<Transfer>)
    requires forall t | t in ts :: ProperTransfer(t)
    ensures forall e | e in EventsOf(ts) :: WithinPayload(e)
    ensures FeedAll(start, EventsOf(ts)).1 == CompletePayloads(ts)
  {
    if ts != [] {
      var front := ts[..|ts| - 1];
      var t := ts[|ts| - 1];
      StreamDelivers(start, front);
      var n := |t.pieces|;
      EventsWithin(t, n);
      var mid := FeedAll(start, EventsOf(front)).0;
      TransferProgress(mid, t, n);
      assert t.pieces[..n] == t.pieces;
      FeedConcat(start, EventsOf(front), EventsUpTo(t, n));
    }
  }

  // ---- Any stream at all ----

  /** Some event brought this byte for this place in a payload of this length. */
  ghost predicate Brought(es: seq<Event>, total: nat, at: nat, b: byte) {
    exists e :: e in es && Brings(e, total, at, b)
  }

  predicate Brings(e: Event, total: nat, at: nat, b: byte) {
    && e.opCode == 1 && e.data.Some? && !Whole(e) && e.payloadLength == total
    && e.offset <= at < e.offset + |e.data.value| && e.data.value[at - e.offset] == b
  }

  ghost predicate AllBrought(es: seq<Event>, total: nat, bytes: seq<byte>) {
    forall i | 0 <= i < |bytes| :: Brought(es, total, i, bytes[i])
  }

  /** A queued frame came whole in one event, or every byte of it was brought for its own place. */
  ghost predicate Genuine(es: seq<Event>, frame: seq<byte>) {
    (exists e :: e in es && e.opCode == 1 && e.data == Some(frame) && Whole(e)) || AllBrought(es, |frame|, frame)
  }

  lemma MoreBrought(es: seq<Event>, e: Event, total: nat, bytes: seq<byte>)
    requires AllBrought(es, total, bytes)
    ensures AllBrought(es + [e], total, bytes)
  {
    forall i | 0 <= i < |bytes| ensures Brought(es + [e], total, i, bytes[i]) {
      assert Brought(es, total, i, bytes[i]);
      var f :| f in es && Brings(f, total, i, bytes[i]);
      assert f in es + [e];
    }
  }

  lemma MoreGenuine(es: seq<Event>, e: Event, frame: seq<byte>)
    requires Genuine(es, frame)
    ensures Genuine(es + [e], frame)
  {
    if AllBrought(es, |frame|, frame) {
      MoreBrought(es, e, |frame|, frame);
    } else {
      var f :| f in es && f.opCode == 1 && f.data == Some(frame) && Whole(f);
      assert f in es + [e];
    }
  }

  /** One event extends what was brought by what it brings. */
  lemma ExtendBrought(es: seq<Event>, e: Event, got: seq<byte>)
    requires e.opCode == 1 && e.data.Some? && !Whole(e) && e.payloadLength > 0 && e.offset == |got|
    requires AllBrought(es, e.payloadLength, got)
    ensures AllBrought(es + [e], e.payloadLength, got + e.data.value)
  {
    MoreBrought(es, e, e.payloadLength, got);
    var all := got + e.data.value;
    forall i | 0 <= i < |all| ensures Brought(es + [e], e.payloadLength, i, all[i]) {
      if i >= |got| {
        assert e in es + [e] && Brings(e, e.payloadLength, i, all[i]);
      }
    }
  }

  /**
   However parts are lost, repeated or interleaved, no frame is made up: each queued frame arrived
   whole, or all its bytes were sent for those very places of a payload of its length.
   */
  lemma {:induction false} NothingInvented(es: seq<Event>)
    ensures var (p, frames) := FeedAll(None, es);
      && (forall f | f in frames :: Genuine(es, f))
      && (p.Some? ==> AllBrought(es, p.value.total, p.value.got))
  {
    if es != [] {
      var front := es[..|es| - 1];
      var e := es[|es| - 1];
      assert es == front + [e] && e in es;
      NothingInvented(front);
      var (p, frames) := FeedAll(None, front);
      forall f | f in frames ensures Genuine(es, f) {
        MoreGenuine(front, e, f);
      }
      if p.Some? {
        MoreBrought(front, e, p.value.total, p.value.got);
      }
      if e.opCode == TEXT && e.data.Some? && e.data.value != [] && !Whole(e) {
        if e.offset == 0 {
          ExtendBrought(front, e, []);
          assert [] + e.data.value == e.data.value;
        } else if p.Some? && p.value.total == e.payloadLength && |p.value.got| == e.offset {
          ExtendBrought(front, e, p.value.got);
        }
      }
    }
  }

  // ---- One event, by its fields ----

  /** A text event with data. */
  ghost predicate Counts(e: Event) { e.opCode == 1 && e.data.Some? && |e.data.value| > 0 }

  /** The event starts a payload of several parts, or comes after one that did. */
  ghost predicate IsPart(e: Event) {
    Counts(e) && e.payloadLength > 0 && !(e.offset == 0 && e.payloadLength == |e.data.value|)
  }

  ghost predicate Continues(partial: Option<Partial>, e: Event) {
    partial.Some? && partial.value.total == e.payloadLength && |partial.value.got| == e.offset
  }

  /** Nothing but text with data counts, and before there is a queue nothing does; either way nothing changes. */
  lemma NotCounted(partial: Option<Partial>, e: Event, ready: bool, luck: Luck)
    ensures !Counts(e) ==> Feed(partial, e, ready, luck) == Result(InvalidArg, partial, [])
    ensures Counts(e) && !ready ==> Feed(partial, e, ready, luck) == Result(InvalidState, partial, [])
  {
  }

  /** A whole payload is queued at once, if memory and queue allow, and leaves the one in progress alone. */
  lemma WholeQueued(partial: Option<Partial>, e: Event, luck: Luck)
    requires Counts(e) && !IsPart(e)
    ensures Feed(partial, e, true, luck)
         == if luck.copy && luck.queue then Result(Err.Ok, partial, [e.data.value]) else Result(NoMem, partial, [])
  {
  }

  /**
   A part that neither starts a payload nor continues the one in progress, exactly where that stands, gives it
   up; so does one that goes past its end, and a shortage of memory. The part that completes it queues it.
   */
  lemma PartFed(partial: Option<Partial>, e: Event, luck: Luck)
    requires IsPart(e)
    ensures var r := Feed(partial, e, true, luck);
      if e.offset != 0 && !Continues(partial, e) then r == Result(Fail, None, [])
      else if e.offset == 0 && !luck.grow then r == Result(NoMem, None, [])
      else
        var got := (if e.offset == 0 then [] else partial.value.got) + e.data.value;
        if |got| < e.payloadLength then r == Result(Err.Ok, Some(Partial(e.payloadLength, got)), [])
        else if |got| > e.payloadLength then r == Result(Fail, None, [])
        else if luck.copy && luck.queue then r == Result(Err.Ok, None, [got])
        else r == Result(NoMem, None, [])
  {
  }

  lemma {:induction false} NothingInProgress(es: seq<Event>)
    requires forall e | e in es :: Counts(e) ==> IsPart(e) && e.offset != 0
    ensures FeedAll(None, es) == (None, [])
  {
    if es != [] {
      var e := es[|es| - 1];
      assert e in es;
      NothingInProgress(es[..|es| - 1]);
      NotCounted(None, e, true, PLENTY);
      if Counts(e) {
        PartFed(None, e, PLENTY);
      }
      assert FeedAll(None, es[..|es| - 1]).1 + [] == [];
    }
  }

  /** After a gap no frame comes of the rest of the payload, whatever parts of it follow. */
  lemma GapStops(partial: Option<Partial>, e: Event, es: seq<Event>)
    requires IsPart(e) && e.offset != 0 && !Continues(partial, e)
    requires forall f | f in es :: Counts(f) ==> IsPart(f) && f.offset != 0
    ensures FeedAll(partial, [e] + es) == (None, [])
  {
    PartFed(partial, e, PLENTY);
    assert [e][..0] == [] && FeedAll(partial, []) == (partial, []);
    assert FeedAll(partial, []).1 + [] == [];
    assert FeedAll(partial, [e]) == (None, []);
    FeedConcat(partial, [e], es);
    NothingInProgress(es);
    assert [] + FeedAll(None, es).1 == [];
  }

  // ---- The code ----

  class Inbound {
    var buf: array?<byte>
    var len: nat
    var cap: nat
    var payloadLength: nat
    var ready: bool                  // the inbound queue has been created
    var queue: seq<seq<byte>>

    /** While a payload is in progress the buffer has room for all of it and a terminator. */
    ghost predicate Valid()
      reads this
    {
      && (buf == null ==> len == 0 && cap == 0 && payloadLength == 0)
      && (buf != null ==> cap == buf.Length && len < payloadLength < cap)
    }

    ghost function InProgress(): Option<Partial>
      requires Valid()
      reads this, buf
    {
      if buf == null then None else Some(Partial(payloadLength, buf[..len]))
    }

    constructor ()
      ensures Valid() && InProgress() == None && queue == [] && !ready
    {
      buf, len, cap, payloadLength, ready, queue := null, 0, 0, 0, false, [];
    }

    method Reset()
      modifies this`buf, this`len, this`cap, this`payloadLength
      ensures Valid() && InProgress() == None
    {
      buf, len, cap, payloadLength := null, 0, 0, 0;
    }

    method QueueFrame(frame: seq<byte>, luck: Luck) returns (err: Err)
      requires frame != [] && ready
      modifies this`queue
      ensures var r := Enqueue(None, frame, luck); err == r.err && queue == old(queue) + r.queued
    {
      if !luck.copy || !luck.queue {
        return NoMem;
      }
      queue := queue + [frame];
      return Err.Ok;
    }

    /** The branch for the first part of a payload: make room and start over. */
    method Start(total: nat, canGrow: bool) returns (ok: bool)
      requires total > 0 && (buf != null ==> cap == buf.Length)
      requires buf == null ==> cap == 0
      modifies this`buf, this`len, this`cap, this`payloadLength
      ensures ok ==> buf != null && len == 0 && payloadLength == total < cap == buf.Length
      ensures !ok ==> !canGrow && Valid() && InProgress() == None
      ensures buf == old(buf) || buf == null || fresh(buf)
      ensures ok <==> canGrow || total < old(cap)
      ensures ok ==> cap == Max(old(cap), total + 1)
    {
      var needed := total + 1;
      if needed > cap {
        if !canGrow {
          Reset();
          return false;
        }
        buf, cap := new byte[needed], needed;
      }
      len, payloadLength := 0, total;
      return true;
    }

    /**
     The common end: append the part, terminate it, and deliver the payload if it is all there. A part that
     goes past the payload but still fits the buffer makes the code give the payload up.
     */
    method Append(data: seq<byte>, luck: Luck) returns (err: Err)
      requires buf != null && cap == buf.Length && ready && data != []
      requires len < payloadLength < cap && len + |data| < cap
      modifies this, buf
      ensures Valid() && ready
      ensures var r := Extend(Partial(old(payloadLength), old(buf[..len])), data, luck.(grow := true));
        err == r.err && InProgress() == r.partial && queue == old(queue) + r.queued
      ensures buf == old(buf) || buf == null
    {
      ghost var got := buf[..len];
      forall i | 0 <= i < |data| {
        buf[len + i] := data[i];
      }
      len := len + |data|;
      assert buf[..len] == got + data;
      buf[len] := 0;
      assert buf[..len] == got + data;
      if len < payloadLength {
        return Err.Ok;
      }
      if len != payloadLength {
        Reset();
        return Fail;
      }
      err := QueueFrame(buf[..len], luck);
      Reset();
    }

    /** A part of a larger payload: the branches that start one and that go on with one. */
    method HandlePart(e: Event, luck: Luck) returns (outcome: Outcome)
      requires Valid() && e.opCode == TEXT && e.data.Some? && e.data.value != [] && ready && !Whole(e)
      modifies this, buf
      ensures Valid() && ready == old(ready)
      ensures outcome.Overrun? <==> Overruns(old(InProgress()), old(cap), e, ready, luck)
      ensures outcome.Done? ==>
                var r := Feed(old(InProgress()), e, ready, luck.(grow := luck.grow || e.payloadLength < old(cap)));
                outcome.err == r.err && InProgress() == r.partial && queue == old(queue) + r.queued
    {
      hide Enqueue;
      var data := e.data.value;
      if e.offset == 0 {
        var ok := Start(e.payloadLength, luck.grow);
        if !ok {
          return Done(NoMem);
        }
        assert buf[..0] == [];
      } else if buf == null || payloadLength != e.payloadLength || len != e.offset {
        Reset();
        return Done(Fail);
      }
      if len + |data| >= cap {
        return Overrun;
      }
      var err := Append(data, luck);
      return Done(err);
    }

    /**
     cap_im_qq_handle_inbound_ws_data; the buffer grows only when it is too small for the payload. Where
     the code would write past its buffer the method stops, and nothing is claimed of what follows.
     */
    method HandleData(e: Event, luck: Luck) returns (outcome: Outcome)
      requires Valid()
      modifies this, buf
      ensures Valid() && ready == old(ready)
      ensures outcome.Overrun? <==> Overruns(old(InProgress()), old(cap), e, ready, luck)
      ensures outcome.Done? ==>
                var r := Feed(old(InProgress()), e, ready, luck.(grow := luck.grow || e.payloadLength < old(cap)));
                outcome.err == r.err && InProgress() == r.partial && queue == old(queue) + r.queued
      ensures WithinPayload(e) ==> outcome.Done?
    {
      hide Extend;
      if e.opCode != TEXT || e.data.None? || e.data.value == [] {
        return Done(InvalidArg);
      }
      if !ready {
        return Done(InvalidState);
      }
      var data := e.data.value;
      if e.payloadLength <= 0 || (e.offset == 0 && e.payloadLength == |data|) {
        var err := QueueFrame(data, luck);
        return Done(err);
      }
      outcome := HandlePart(e, luck);
    }
  }
}
