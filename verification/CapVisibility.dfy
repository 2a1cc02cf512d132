/**
 The per-session table of capability groups shown to the language model
 (components/claw_cap/src/claw_cap.c, lines 278-306 and 1302-1389).
 The implementation is a growable array whose rows are found by a linear search and removed by
 shifting; the specification is what a caller sees: each session answers with the list it was
 given last, unless that list was empty.
 */
module CapVisibility {
  import opened Common

  datatype Session = Session(id: string, groups: seq<string>)

  const EMPTY_ROW := Session("", [])
  const FIRST_CAPACITY := 4

  /** Index of the first row with this id; the empty id is never looked up. */
  function FindSession(rows: seq<Session>, id: string): (r: Option<nat>)
    ensures r.Some? ==> r.value < |rows| && rows[r.value].id == id && id != ""
    ensures r.Some? ==> forall j | 0 <= j < r.value :: rows[j].id != id
    ensures r.None? ==> id == "" || forall j | 0 <= j < |rows| :: rows[j].id != id
  {
    if id == "" || rows == [] then None
    else if rows[0].id == id then Some(0)
    else match FindSession(rows[1..], id)
      case None => None
      case Some(i) => assert forall j | 1 <= j < |rows| :: rows[j] == rows[1..][j - 1]; Some(i + 1)
  }

  function Lookup(rows: seq<Session>, id: string): Option<seq<string>> {
    match FindSession(rows, id)
    case None => None
    case Some(i) => Some(rows[i].groups)
  }

  /** The rows after a session is given a new list: replaced, removed by shifting, or appended. */
  function Updated(rows: seq<Session>, id: string, groups: seq<string>): seq<Session> {
    match FindSession(rows, id)
    case Some(i) =>
      if groups == [] then rows[..i] + rows[i + 1..] else rows[i := Session(id, groups)]
    case None =>
      if groups == [] then rows else rows + [Session(id, groups)]
  }

  ghost predicate WellFormed(rows: seq<Session>) {
    && (forall i | 0 <= i < |rows| :: rows[i].id != "" && rows[i].groups != [])
    && (forall i, j | 0 <= i < j < |rows| :: rows[i].id != rows[j].id)
  }

  lemma UpdatedKeepsWellFormed(rows: seq<Session>, id: string, groups: seq<string>)
    requires WellFormed(rows) && id != ""
    ensures WellFormed(Updated(rows, id, groups))
  {
    match FindSession(rows, id)
    case None =>
    case Some(i) => if groups == [] { RemovedKeepsWellFormed(rows, i); }
  }

  lemma RemovedKeepsWellFormed(rows: seq<Session>, i: nat)
    requires WellFormed(rows) && i < |rows|
    ensures WellFormed(rows[..i] + rows[i + 1..])
  {
    var after := rows[..i] + rows[i + 1..];
    assert forall k | 0 <= k < |after| :: after[k] == rows[if k < i then k else k + 1];
  }

  lemma LookupIs(rows: seq<Session>, id: string, i: nat)
    requires WellFormed(rows) && i < |rows| && rows[i].id == id
    ensures Lookup(rows, id) == Some(rows[i].groups)
  {
  }

  /** One update changes the answer for its own session and for no other. */
  lemma UpdatedLookup(rows: seq<Session>, id: string, groups: seq<string>, other: string)
    requires WellFormed(rows) && id != ""
    ensures Lookup(Updated(rows, id, groups), other)
         == if other == id then (if groups == [] then None else Some(groups)) else Lookup(rows, other)
  {
    var after := Updated(rows, id, groups);
    UpdatedKeepsWellFormed(rows, id, groups);
    if other == id {
      if groups != [] {
        var at := match FindSession(rows, id) case Some(i) => i case None => |rows|;
        LookupIs(after, id, at);
      }
    } else {
      match FindSession(rows, other)
      case None =>
      case Some(k) =>
        match FindSession(rows, id)
        case None => LookupIs(after, other, k);
        case Some(i) =>
          LookupIs(after, other, if groups == [] && i < k then k - 1 else k);
    }
  }

  datatype Update = Update(id: string, groups: seq<string>)

  /** Table contents after a history of accepted updates. */
  ghost function Replay(history: seq<Update>): seq<Session> {
    if history == [] then []
    else
      var last := history[|history| - 1];
      Updated(Replay(history[..|history| - 1]), last.id, last.groups)
  }

  /** What the session was told last, independent of any table. */
  ghost function LastList(history: seq<Update>, id: string): Option<seq<string>> {
    if history == [] then None
    else
      var last := history[|history| - 1];
      if last.id != id then LastList(history[..|history| - 1], id)
      else if last.groups == [] then None
      else Some(last.groups)
  }

  /** For every history of updates, the table answers each session with its last non-empty list. */
  lemma {:induction false} TableIsLastList(history: seq<Update>, id: string)
    requires forall u | u in history :: u.id != ""
    ensures WellFormed(Replay(history))
    ensures Lookup(Replay(history), id) == LastList(history, id)
  {
    if history != [] {
      var before := history[..|history| - 1];
      var last := history[|history| - 1];
      TableIsLastList(before, id);
      UpdatedKeepsWellFormed(Replay(before), last.id, last.groups);
      UpdatedLookup(Replay(before), last.id, last.groups, id);
    }
  }

  /** The growable array itself: slots[..count] is in use, slots.Length is the capacity. */
  class SessionTable {
    var slots: array<Session>
    var count: nat

    ghost predicate Valid()
      reads this
    {
      count <= slots.Length
    }

    ghost function Contents(): seq<Session>
      requires Valid()
      reads this, slots
    {
      slots[..count]
    }

    constructor ()
      ensures Valid() && Contents() == [] && fresh(slots)
    {
      slots := new Session[0];
      count := 0;
    }

    method Find(id: string) returns (index: int)
      requires Valid()
      ensures FindSession(Contents(), id) == if index < 0 then None else Some(index)
    {
      if id == "" {
        return -1;
      }
      for i := 0 to count
        invariant forall j | 0 <= j < i :: slots[j].id != id
      {
        if slots[i].id == id {
          return i;
        }
      }
      return -1;
    }

    method GroupsOf(id: string) returns (groups: Option<seq<string>>)
      requires Valid()
      ensures groups == Lookup(Contents(), id)
    {
      var i := Find(id);
      groups := if i < 0 then None else Some(slots[i].groups);
    }

    /** Moves slots[at + 1 .. count] one place down. */
    method ShiftDown(at: nat)
      requires Valid() && at < count
      modifies slots
      ensures slots[..count - 1] == old(slots[..at] + slots[at + 1..count])
    {
      for i := at to count - 1
        invariant forall j | 0 <= j < at :: slots[j] == old(slots[j])
        invariant forall j | at <= j < i :: slots[j] == old(slots[j + 1])
        invariant forall j | i <= j < count :: slots[j] == old(slots[j])
      {
        slots[i] := slots[i + 1];
      }
    }

    /** Doubles the capacity, keeping every row at its index and clearing the new ones. */
    method Grow()
      requires Valid() && count == slots.Length
      modifies this
      ensures Valid() && fresh(slots) && count == old(count)
      ensures slots.Length == if old(slots.Length) == 0 then FIRST_CAPACITY else 2 * old(slots.Length)
      ensures count < slots.Length && Contents() == old(Contents())
      ensures forall i | count <= i < slots.Length :: slots[i] == EMPTY_ROW
    {
      var capacity := if slots.Length == 0 then FIRST_CAPACITY else 2 * slots.Length;
      var was := slots;
      var grown := new Session[capacity](i requires 0 <= i < capacity reads was =>
        if i < was.Length then was[i] else EMPTY_ROW);
      slots := grown;
    }

    /** Clears row i and closes the gap. */
    method Remove(i: nat)
      requires Valid() && i < count
      modifies this`count, slots
      ensures Valid() && Contents() == old(Contents()[..i] + Contents()[i + 1..])
    {
      ghost var was := slots[..count];
      slots[i] := EMPTY_ROW;
      assert slots[..i] == was[..i] && slots[i + 1..count] == was[i + 1..];
      ShiftDown(i);
      count := count - 1;
    }

    method Set(id: string, groups: seq<string>, canGrow: bool) returns (err: Err)
      requires Valid()
      modifies this, slots
      ensures Valid() && (slots == old(slots) || fresh(slots))
      ensures err == InvalidArg <==> id == "" || "" in groups
      ensures err == NoMem <==>
        && id != "" && "" !in groups && groups != [] && !canGrow
        && FindSession(old(Contents()), id).None? && old(count == slots.Length)
      ensures err in {Ok, InvalidArg, NoMem}
      ensures Contents() == if err == Ok then Updated(old(Contents()), id, groups) else old(Contents())
    {
      if id == "" || "" in groups {
        return InvalidArg;
      }
      var i := Find(id);
      if i >= 0 {
        if groups == [] {
          Remove(i);
        } else {
          slots[i] := Session(id, groups);
        }
        return Ok;
      }
      if groups == [] {
        return Ok;
      }
      if count == slots.Length {
        if !canGrow {
          return NoMem;
        }
        Grow();
      }
      slots[count] := Session(id, groups);
      count := count + 1;
      return Ok;
    }
  }
}
