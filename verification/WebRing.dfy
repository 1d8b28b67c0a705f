/** The two shared-memory parameter rings between the shim and the manager: entries are
    appended at write_idx and announced by an 8-bit ready counter; a drain takes everything
    and resets write_idx. Both rings have this layout and differ in capacity. */
module WebRing {
  import opened Machine

  const NOTIFY_ENTRIES := 64
  const KEY_LEN := 64
  const VALUE_LEN := 256
  const ENTRY_SIZE := 324      // slot, three reserved bytes, key, value
  const HEADER := 4            // write_idx, ready, two reserved bytes
  const KEY_OFF := 4
  const VALUE_OFF := 68

  datatype Entry = Entry(slot: Byte, key: Bytes, value: Bytes)

  datatype Refusal = Accepted | KeyTooLong | ValueTooLong | Full

  lemma {:induction false} CStringOfPadded(s: Bytes, n: nat)
    requires n > 0
    ensures CString(s + Repeat(NUL, n)) == CString(s)
    decreases |s|
  {
    var all := s + Repeat(NUL, n);
    if s != [] {
      assert all[0] == s[0] && all[1..] == s[1..] + Repeat(NUL, n);
      CStringOfPadded(s[1..], n);
    } else {
      assert all[0] == NUL;
    }
  }

  lemma {:induction false} CStringWhole(s: Bytes)
    requires NUL !in s
    ensures CString(s) == s
  {
    if s != [] {
      CStringWhole(s[1..]);
    }
  }

  function Offset(i: nat): nat {
    HEADER + i * ENTRY_SIZE
  }

  /** What a reader makes of entry i of the mapped bytes. */
  function EntryAt(data: Bytes, i: nat): Entry
    requires Offset(i + 1) <= |data|
  {
    var o := Offset(i);
    Entry(data[o], CString(data[o + KEY_OFF..o + VALUE_OFF]), CString(data[o + VALUE_OFF..o + ENTRY_SIZE]))
  }

  function Entries(data: Bytes, n: nat): (r: seq<Entry>)
    requires Offset(n) <= |data|
    ensures |r| == n
  {
    seq(n, i requires 0 <= i < n && Offset(i + 1) <= |data| => EntryAt(data, i))
  }

  /** The entries a drain passes on: those with a key. */
  function Deliverable(es: seq<Entry>): seq<Entry> {
    if es == [] then []
    else Deliverable(es[..|es| - 1]) + if es[|es| - 1].key != [] then [es[|es| - 1]] else []
  }

  // ---- The ring as both sides see it, with push and drain as steps ----

  datatype Ring = Ring(pending: seq<Entry>, ready: Byte, lastReady: Byte)

  function Pushed(r: Ring, e: Entry, capacity: nat): Ring {
    if |r.pending| >= capacity then r
    else r.(pending := r.pending + [e], ready := (r.ready + 1) % 256)
  }

  function Drained(r: Ring): Ring {
    if r.ready == r.lastReady then r else r.(pending := [], lastReady := r.ready)
  }

  function Delivery(r: Ring): seq<Entry> {
    if r.ready == r.lastReady then [] else Deliverable(r.pending)
  }

  class Shared {
    const data: array<Byte>
    const capacity: nat
    var lastReady: Byte          // the consumer's copy

    predicate Layout()
      reads this
    {
      capacity <= NOTIFY_ENTRIES && data.Length == Offset(capacity)
    }

    ghost predicate Valid()
      reads this, data
    {
      Layout() && data[0] <= capacity
    }

    ghost function View(): Ring
      requires Valid()
      reads this, data
    {
      Ring(Entries(data[..], data[0]), data[1], lastReady)
    }

    /** Opening the ring, whatever it already holds: the consumer starts from the current counter. */
    constructor Open(data: array<Byte>, capacity: nat)
      requires capacity <= NOTIFY_ENTRIES && data.Length == Offset(capacity) && data[0] <= capacity
      ensures this.data == data && this.capacity == capacity && Valid()
      ensures View().lastReady == View().ready
    {
      this.data, this.capacity := data, capacity;
      lastReady := data[1];
    }

    /** Zero a field and copy text into its front. */
    method WriteField(off: nat, len: nat, text: Bytes)
      requires off + len <= data.Length && |text| <= len
      modifies data
      ensures FieldHolds(data[..], off, len, text)
      ensures forall j :: 0 <= j < data.Length && !(off <= j < off + len) ==> data[j] == old(data[j])
    {
      for i := 0 to len
        invariant forall j :: off <= j < off + i ==> data[j] == NUL
        invariant forall j :: 0 <= j < data.Length && !(off <= j < off + len) ==> data[j] == old(data[j])
      {
        data[off + i] := NUL;
      }
      for i := 0 to |text|
        invariant forall j :: off <= j < off + i ==> data[j] == text[j - off]
        invariant forall j :: off + i <= j < off + len ==> data[j] == NUL
        invariant forall j :: 0 <= j < data.Length && !(off <= j < off + len) ==> data[j] == old(data[j])
      {
        data[off + i] := text[i];
      }
    }

    /** SetParam of the manager: refuses what does not fit with its NUL, otherwise appends. */
    method SetParam(slot: Byte, key: Bytes, value: Bytes) returns (r: Refusal)
      requires Valid()
      modifies data
      ensures Valid()
      ensures r == if |key| >= KEY_LEN then KeyTooLong
                   else if |value| >= VALUE_LEN then ValueTooLong
                   else if |old(View()).pending| >= capacity then Full
                   else Accepted
      ensures View() == if r == Accepted then Pushed(old(View()), Entry(slot, CString(key), CString(value)), capacity)
                        else old(View())
    {
      if |key| >= KEY_LEN {
        return KeyTooLong;
      }
      if |value| >= VALUE_LEN {
        return ValueTooLong;
      }
      if data[0] >= capacity {
        return Full;
      }
      Append(slot, key, value);
      r := Accepted;
    }

    /** web_param_notify_push of the shim: drops when full, and truncates instead of refusing. */
    method NotifyPush(slot: Byte, key: Bytes, value: Bytes)
      requires Valid() && NUL !in key && NUL !in value
      modifies data
      ensures Valid()
      ensures var entry := Entry(slot, key[..Min(|key|, KEY_LEN - 1)], value[..Min(|value|, VALUE_LEN - 1)]);
              View() == Pushed(old(View()), entry, capacity)
    {
      if data[0] >= capacity {
        return;
      }
      var k, v := key[..Min(|key|, KEY_LEN - 1)], value[..Min(|value|, VALUE_LEN - 1)];
      CStringWhole(k);
      CStringWhole(v);
      Append(slot, k, v);
    }

    method Append(slot: Byte, key: Bytes, value: Bytes)
      requires Valid() && |key| < KEY_LEN && |value| < VALUE_LEN && data[0] < capacity
      modifies data
      ensures Valid()
      ensures View() == Pushed(old(View()), Entry(slot, CString(key), CString(value)), capacity)
    {
      hide CString, EntryAt;
      var idx: nat := data[0];
      ghost var before := data[..];
      WriteEntry(idx, slot, key, value);
      ghost var after := data[..];
      EntriesGrow(before, after, idx);
      OffsetsGrow(idx, capacity);
      data[0] := idx + 1;
      data[1] := (data[1] as int + 1) % 256;
      SameEntries(after, data[..], idx + 1);
    }

    method WriteEntry(idx: nat, slot: Byte, key: Bytes, value: Bytes)
      requires idx < capacity && data.Length == Offset(capacity) && |key| < KEY_LEN && |value| < VALUE_LEN
      modifies data
      ensures EntryAt(data[..], idx) == Entry(slot, CString(key), CString(value))
      ensures Offset(idx) == 4 + 324 * idx && data[4 + 324 * idx] == slot
      ensures FieldHolds(data[..], 4 + 324 * idx + 4, 64, key)
      ensures FieldHolds(data[..], 4 + 324 * idx + 68, 256, value)
      ensures forall j :: 0 <= j < Offset(idx) ==> data[j] == old(data[j])
    {
      hide CString, EntryAt;
      var o := Offset(idx);
      OffsetsGrow(idx, capacity);
      data[o] := slot;
      WriteField(o + KEY_OFF, KEY_LEN, key);
      WriteField(o + VALUE_OFF, VALUE_LEN, value);
      EntryWritten(data[..], idx, slot, key, value);
    }

    method ReadEntry(i: nat) returns (e: Entry)
      requires i < capacity && data.Length == Offset(capacity)
      ensures e == EntryAt(data[..], i)
    {
      hide CString;
      var o := Offset(i);
      OffsetsGrow(i, capacity);
      e := Entry(data[o], CString(data[o + KEY_OFF..o + VALUE_OFF]), CString(data[o + VALUE_OFF..o + ENTRY_SIZE]));
      assert data[..][o + KEY_OFF..o + VALUE_OFF] == data[o + KEY_OFF..o + VALUE_OFF];
      assert data[..][o + VALUE_OFF..o + ENTRY_SIZE] == data[o + VALUE_OFF..o + ENTRY_SIZE];
    }

    /** Drain of the manager and the shim's drain of the set ring: everything pending, in order,
        unless the counter has not moved. A count that no writer stores is reset unread. */
    method Drain() returns (changes: seq<Entry>)
      requires Layout()
      modifies data, this
      ensures Layout()
      ensures old(Valid()) ==> Valid() && changes == Delivery(old(View())) && View() == Drained(old(View()))
      ensures !old(Valid()) ==>
                changes == [] && lastReady == old(data[1]) && (old(data[1]) != old(lastReady) ==> Valid())
    {
      hide EntryAt;
      changes := [];
      if data[1] == lastReady {
        return;
      }
      lastReady := data[1];
      var count: nat := data[0];
      if count > capacity {
        data[0] := 0;
        return;
      }
      ghost var bytes := data[..];
      ghost var all := Entries(bytes, count);
      for i := 0 to count
        invariant data[..] == bytes
        invariant lastReady == data[1]
        invariant changes == Deliverable(all[..i])
      {
        assert all[..i + 1][..i] == all[..i];
        var e := ReadEntry(i);
        assert all[..i + 1][i] == e;
        if e.key != [] {
          changes := changes + [e];
        }
      }
      assert all[..count] == all;
      data[0] := 0;
    }
  }

  /** The field at off holds text and then NULs. */
  ghost predicate FieldHolds(data: Bytes, off: nat, len: nat, text: Bytes)
    requires off + len <= |data| && |text| <= len
  {
    forall j :: off <= j < off + len ==> data[j] == if j < off + |text| then text[j - off] else NUL
  }

  lemma FieldReads(data: Bytes, off: nat, len: nat, text: Bytes)
    requires off + len <= |data| && |text| < len && FieldHolds(data, off, len, text)
    ensures CString(data[off..off + len]) == CString(text)
  {
    hide CString;
    var s := data[off..off + len];
    forall j | 0 <= j < len
      ensures s[j] == if j < |text| then text[j] else NUL
    {
      assert s[j] == data[off + j];
    }
    PaddedText(s, text);
    CStringOfPadded(text, len - |text|);
  }

  lemma PaddedText(s: Bytes, text: Bytes)
    requires |text| <= |s| && forall j :: 0 <= j < |s| ==> s[j] == if j < |text| then text[j] else NUL
    ensures s == text + Repeat(NUL, |s| - |text|)
  {
  }

  /** What the three field writes of an append leave is read back as the entry. */
  lemma EntryWritten(data: Bytes, idx: nat, slot: Byte, key: Bytes, value: Bytes)
    requires Offset(idx + 1) <= |data| && Offset(idx + 1) == Offset(idx) + ENTRY_SIZE
    requires |key| < KEY_LEN && |value| < VALUE_LEN
    requires var o := Offset(idx);
             && data[o] == slot
             && FieldHolds(data, o + KEY_OFF, KEY_LEN, key)
             && FieldHolds(data, o + VALUE_OFF, VALUE_LEN, value)
    ensures EntryAt(data, idx) == Entry(slot, CString(key), CString(value))
  {
    hide CString, FieldHolds;
    var o := Offset(idx);
    assert o + KEY_OFF + KEY_LEN == o + VALUE_OFF && o + VALUE_OFF + VALUE_LEN == o + ENTRY_SIZE;
    FieldReads(data, o + KEY_OFF, KEY_LEN, key);
    FieldReads(data, o + VALUE_OFF, VALUE_LEN, value);
  }

  lemma OffsetsGrow(i: nat, n: nat)
    requires i < n
    ensures HEADER <= Offset(i) && Offset(i) + ENTRY_SIZE == Offset(i + 1) <= Offset(n)
  {
    assert n * ENTRY_SIZE == (i + 1) * ENTRY_SIZE + (n - i - 1) * ENTRY_SIZE;
  }

  lemma SameEntry(a: Bytes, b: Bytes, i: nat)
    requires |a| == |b| && Offset(i + 1) <= |a| && forall j :: HEADER <= j < Offset(i + 1) ==> a[j] == b[j]
    ensures EntryAt(a, i) == EntryAt(b, i)
  {
    hide CString;
    var o := Offset(i);
    OffsetsGrow(i, i + 1);
    assert a[o + KEY_OFF..o + VALUE_OFF] == b[o + KEY_OFF..o + VALUE_OFF];
    assert a[o + VALUE_OFF..o + ENTRY_SIZE] == b[o + VALUE_OFF..o + ENTRY_SIZE];
  }

  /** The header bytes and the bytes past entry n do not matter to the first n entries. */
  lemma SameEntries(a: Bytes, b: Bytes, n: nat)
    requires |a| == |b| && Offset(n) <= |a| && forall j :: HEADER <= j < Offset(n) ==> a[j] == b[j]
    ensures Entries(a, n) == Entries(b, n)
  {
    hide EntryAt;
    forall i | 0 <= i < n
      ensures Entries(a, n)[i] == Entries(b, n)[i]
    {
      OffsetsGrow(i, n);
      SameEntry(a, b, i);
    }
  }

  lemma EntriesGrow(before: Bytes, after: Bytes, idx: nat)
    requires |before| == |after| && Offset(idx + 1) <= |before|
    requires forall j :: 0 <= j < Offset(idx) ==> before[j] == after[j]
    ensures Entries(after, idx + 1) == Entries(before, idx) + [EntryAt(after, idx)]
  {
    hide EntryAt;
    OffsetsGrow(idx, idx + 1);
    SameEntries(before, after, idx);
    assert Entries(after, idx + 1)[..idx] == Entries(after, idx) by {
      forall i | 0 <= i < idx
        ensures Entries(after, idx + 1)[i] == Entries(after, idx)[i]
      {
        OffsetsGrow(i, idx);
      }
    }
  }

  /** A key and value without NULs come back from the ring as they went in. */
  lemma FieldsRoundTrip(key: Bytes, value: Bytes)
    requires NUL !in key && NUL !in value
    ensures CString(key) == key && CString(value) == value
  {
    CStringWhole(key);
    CStringWhole(value);
  }

  // ---- Runs ----

  datatype Event = Push(e: Entry) | Drain

  /** The ring, the entries a push got in (starting with those found at opening), and the
      entries drains have passed on. `base` counts entries found at opening and not yet drained. */
  datatype State = State(ring: Ring, accepted: seq<Entry>, delivered: seq<Entry>, base: nat)

  function Opened(found: seq<Entry>, ready: Byte): State {
    State(Ring(found, ready, ready), found, [], |found|)
  }

  function Next(s: State, e: Event, capacity: nat): State {
    match e
    case Push(entry) =>
      if |s.ring.pending| >= capacity then s
      else s.(ring := Pushed(s.ring, entry, capacity), accepted := s.accepted + [entry])
    case Drain =>
      s.(ring := Drained(s.ring), delivered := s.delivered + Delivery(s.ring),
         base := if s.ring.ready == s.ring.lastReady then s.base else 0)
  }

  function Run(s: State, events: seq<Event>, capacity: nat): State
    decreases |events|
  {
    if events == [] then s else Run(Next(s, events[0], capacity), events[1..], capacity)
  }

  /** The counter distance is exactly the number of entries pushed since the last effective
      drain, and delivered plus pending is everything accepted. */
  ghost predicate Inv(s: State, capacity: nat) {
    && |s.ring.pending| <= capacity
    && s.base <= |s.ring.pending|
    && (s.ring.ready - s.ring.lastReady) % 256 == |s.ring.pending| - s.base
    && Deliverable(s.accepted) == s.delivered + Deliverable(s.ring.pending)
  }

  lemma DeliverableLast(es: seq<Entry>, e: Entry)
    ensures Deliverable(es + [e]) == Deliverable(es) + if e.key != [] then [e] else []
  {
    assert (es + [e])[..|es + [e]| - 1] == es;
  }

  lemma CounterMoves(ready: Byte, last: Byte, n: nat)
    requires (ready - last) % 256 == n < 255
    ensures ((ready + 1) % 256 - last) % 256 == n + 1
  {
  }

  lemma NextKeepsInv(s: State, e: Event, capacity: nat)
    requires Inv(s, capacity) && capacity <= NOTIFY_ENTRIES
    ensures Inv(Next(s, e, capacity), capacity)
  {
    hide Deliverable;
    match e
    case Push(entry) =>
      CounterMoves(s.ring.ready, s.ring.lastReady, |s.ring.pending| - s.base);
      DeliverableLast(s.accepted, entry);
      DeliverableLast(s.ring.pending, entry);
    case Drain =>
      DeliverableNone();
  }

  lemma DeliverableNone()
    ensures Deliverable([]) == []
  {
  }

  lemma {:induction false} RunKeepsInv(s: State, events: seq<Event>, capacity: nat)
    requires Inv(s, capacity) && capacity <= NOTIFY_ENTRIES
    ensures Inv(Run(s, events, capacity), capacity)
    decreases |events|
  {
    hide Inv;
    if events != [] {
      NextKeepsInv(s, events[0], capacity);
      RunKeepsInv(Next(s, events[0], capacity), events[1..], capacity);
    }
  }

  lemma OpenedInv(found: seq<Entry>, ready: Byte, capacity: nat)
    requires |found| <= capacity
    ensures Inv(Opened(found, ready), capacity)
  {
    assert [] + Deliverable(found) == Deliverable(found);
  }

  /** Exactly once and in order: over every run, what drains have passed on followed by what is
      still pending is what was accepted, entry for entry. */
  lemma ExactlyOnce(found: seq<Entry>, ready: Byte, events: seq<Event>, capacity: nat)
    requires |found| <= capacity <= NOTIFY_ENTRIES
    ensures var s := Run(Opened(found, ready), events, capacity);
            Deliverable(s.accepted) == s.delivered + Deliverable(s.ring.pending)
  {
    OpenedInv(found, ready, capacity);
    RunKeepsInv(Opened(found, ready), events, capacity);
  }

  /** The 8-bit counter never hides a push: a drain finds nothing to do exactly when nothing has
      been pushed since the last effective drain, or since opening. */
  lemma CounterHidesNothing(found: seq<Entry>, ready: Byte, events: seq<Event>, capacity: nat)
    requires |found| <= capacity <= NOTIFY_ENTRIES
    ensures var s := Run(Opened(found, ready), events, capacity);
            && (s.ring.ready == s.ring.lastReady <==> |s.ring.pending| == s.base)
            && (s.ring.ready - s.ring.lastReady) % 256 == |s.ring.pending| - s.base
  {
    OpenedInv(found, ready, capacity);
    RunKeepsInv(Opened(found, ready), events, capacity);
  }

  lemma {:induction false} BaseStaysZero(s: State, events: seq<Event>, capacity: nat)
    requires s.base == 0
    ensures Run(s, events, capacity).base == 0
    decreases |events|
  {
    if events != [] {
      BaseStaysZero(Next(s, events[0], capacity), events[1..], capacity);
    }
  }

  /** A ring that was empty when opened is emptied by every drain: all that was accepted has
      then been passed on. */
  lemma DrainEmpties(ready: Byte, events: seq<Event>, capacity: nat)
    requires capacity <= NOTIFY_ENTRIES
    ensures var s := Next(Run(Opened([], ready), events, capacity), Drain, capacity);
            s.ring.pending == [] && s.delivered == Deliverable(s.accepted)
  {
    var s := Run(Opened([], ready), events, capacity);
    BaseStaysZero(Opened([], ready), events, capacity);
    CounterHidesNothing([], ready, events, capacity);
    OpenedInv([], ready, capacity);
    RunKeepsInv(Opened([], ready), events, capacity);
    NextKeepsInv(s, Drain, capacity);
  }

  /** A consumer that opens a ring never gets anything, and the ring never changes, exactly when
      it finds the ring full: no push can move the counter, and no drain happens until it moves. */
  lemma StuckIffOpenedFull(found: seq<Entry>, ready: Byte, capacity: nat)
    requires |found| <= capacity <= NOTIFY_ENTRIES
    ensures (forall events :: Run(Opened(found, ready), events, capacity).delivered == [])
            <==> |found| == capacity
    ensures (forall events :: Run(Opened(found, ready), events, capacity).ring.pending == found)
            <==> |found| == capacity
  {
    var s := Opened(found, ready);
    if |found| == capacity {
      forall events
        ensures Run(s, events, capacity).ring.pending == found && Run(s, events, capacity).delivered == []
      {
        FullStaysFull(s, events, capacity);
      }
    } else {
      PushAndDrain(found, ready, Entry(0, [1], []), capacity);
    }
  }

  /** With room, one push and one drain get everything across. */
  lemma PushAndDrain(found: seq<Entry>, ready: Byte, e: Entry, capacity: nat)
    requires |found| < capacity && e.key != []
    ensures Run(Opened(found, ready), [Push(e)], capacity).ring.pending == found + [e]
    ensures Run(Opened(found, ready), [Push(e), Drain], capacity).delivered == Deliverable(found) + [e]
  {
    hide Deliverable;
    var s := Opened(found, ready);
    var t := Next(s, Push(e), capacity);
    assert [Push(e)][1..] == [] && [Push(e), Drain][1..] == [Drain] && [Drain][1..] == [];
    assert Run(s, [Push(e)], capacity) == Run(t, [], capacity);
    var u := Next(t, Drain, capacity);
    assert Run(s, [Push(e), Drain], capacity) == Run(t, [Drain], capacity) == Run(u, [], capacity);
    DeliverableLast(found, e);
  }

  lemma {:induction false} FullStaysFull(s: State, events: seq<Event>, capacity: nat)
    requires |s.ring.pending| >= capacity && s.ring.ready == s.ring.lastReady
    ensures Run(s, events, capacity).ring == s.ring && Run(s, events, capacity).delivered == s.delivered
    decreases |events|
  {
    if events != [] {
      FullStaysFull(Next(s, events[0], capacity), events[1..], capacity);
    }
  }

  // ---- A push that overlaps a drain ----

  /** The shared bytes at the grain of single loads and stores, with the locals of the push in
      progress (idx) and of the drain in progress (batch, and whether it found the counter moved). */
  datatype Torn = Torn(
    slots: seq<Entry>,
    writeIdx: nat,
    ready: Byte,
    lastReady: Byte,
    idx: nat,
    batch: seq<Entry>,
    moved: bool,
    delivered: seq<Entry>)

  /** The four steps of a push: load write_idx, store the entry, store write_idx, bump ready. A
      push that loads a full index stores nothing. */
  function PushStep(t: Torn, e: Entry, k: nat): Torn {
    if k == 0 then t.(idx := t.writeIdx)
    else if t.idx >= |t.slots| then t
    else if k == 1 then t.(slots := t.slots[t.idx := e])
    else if k == 2 then t.(writeIdx := t.idx + 1)
    else t.(ready := (t.ready + 1) % 256)
  }

  const PUSH_STEPS := 4

  /** Push steps first, first + 1, ... before last. */
  function Pushing(t: Torn, e: Entry, first: nat, last: nat): Torn
    decreases last - first
  {
    if first >= last then t else Pushing(PushStep(t, e, first), e, first + 1, last)
  }

  /** The three steps of a drain. The copy of the entries is taken with the load of the count: what
      lies below the count is not written until write_idx has been reset. */
  function LoadReady(t: Torn): Torn {
    t.(moved := t.ready != t.lastReady, lastReady := t.ready)
  }

  function LoadCount(t: Torn): Torn {
    if t.moved then t.(batch := if t.writeIdx <= |t.slots| then t.slots[..t.writeIdx] else []) else t
  }

  function ResetIndex(t: Torn): Torn {
    if t.moved then t.(writeIdx := 0, delivered := t.delivered + Deliverable(t.batch)) else t
  }

  function WholeDrain(t: Torn): Torn {
    ResetIndex(LoadCount(LoadReady(t)))
  }

  /** One push overlapping one drain: x1, x2 and x3 push steps are done before the three steps
      of the drain. */
  function BothThrough(t: Torn, e: Entry, x1: nat, x2: nat, x3: nat): Torn {
    var t1 := LoadReady(Pushing(t, e, 0, x1));
    var t2 := LoadCount(Pushing(t1, e, x1, x2));
    var t3 := ResetIndex(Pushing(t2, e, x2, x3));
    Pushing(t3, e, x3, PUSH_STEPS)
  }

  /** When both are through, another drain collects what is left. */
  function Overlap(t: Torn, e: Entry, x1: nat, x2: nat, x3: nat): Torn {
    WholeDrain(BothThrough(t, e, x1, x2, x3))
  }

  /** What the push steps first..last do in one go, for a push that finds room. */
  lemma {:induction false} PushingInOne(t: Torn, e: Entry, first: nat, last: nat)
    requires first <= last <= PUSH_STEPS
    requires var at := if first == 0 then t.writeIdx else t.idx; at < |t.slots|
    ensures var at := if first == 0 then t.writeIdx else t.idx;
            Pushing(t, e, first, last) ==
            t.(idx := if first == 0 < last then at else t.idx,
               slots := if first <= 1 < last then t.slots[at := e] else t.slots,
               writeIdx := if first <= 2 < last then at + 1 else t.writeIdx,
               ready := if first <= 3 < last then (t.ready + 1) % 256 else t.ready)
    decreases last - first
  {
    if first < last {
      PushingInOne(PushStep(t, e, first), e, first + 1, last);
    }
  }

  /** A ring between calls, with room for one more entry. The counter is ahead of the consumer by
      at most the entries pending, as in every run (CounterHidesNothing). */
  ghost predicate Settled(t: Torn) {
    && t.writeIdx < |t.slots| <= NOTIFY_ENTRIES
    && (t.ready - t.lastReady) % 256 <= t.writeIdx
  }

  lemma BumpMoves(ready: Byte, last: Byte)
    requires (ready - last) % 256 <= NOTIFY_ENTRIES
    ensures (ready + 1) % 256 != last && (ready + 1) % 256 != ready
  {
  }

  /** What the two leave: idx is 0 only if the drain was over first, and write_idx is what the
      later of the two stores made it. */
  lemma AfterBoth(t: Torn, e: Entry, x1: nat, x2: nat, x3: nat)
    requires Settled(t) && x1 <= x2 <= x3 <= PUSH_STEPS
    ensures var moved := t.ready != t.lastReady || x1 == PUSH_STEPS;
            var n := t.writeIdx;
            var at := if moved && x3 == 0 then 0 else n;
            var r := BothThrough(t, e, x1, x2, x3);
            && r.slots == t.slots[at := e]
            && r.writeIdx == (if moved && x3 >= 3 then 0 else at + 1)
            && r.ready == (t.ready + 1) % 256
            && r.lastReady == (if x1 == PUSH_STEPS then r.ready else t.ready)
            && r.delivered == t.delivered +
                 if !moved then [] else Deliverable(if x2 >= 3 then t.slots[n := e][..n + 1] else t.slots[..n])
  {
    hide Deliverable, Pushing;
    BumpMoves(t.ready, t.lastReady);
    PushingInOne(t, e, 0, x1);
    var t1 := LoadReady(Pushing(t, e, 0, x1));
    PushingInOne(t1, e, x1, x2);
    var t2 := LoadCount(Pushing(t1, e, x1, x2));
    PushingInOne(t2, e, x2, x3);
    var t3 := ResetIndex(Pushing(t2, e, x2, x3));
    PushingInOne(t3, e, x3, PUSH_STEPS);
    assert t.slots[t.writeIdx := e][..t.writeIdx] == t.slots[..t.writeIdx];
  }

  lemma WholeDrainDelivers(t: Torn)
    requires t.writeIdx <= |t.slots|
    ensures WholeDrain(t).delivered ==
            t.delivered + if t.ready == t.lastReady then [] else Deliverable(t.slots[..t.writeIdx])
  {
    hide Deliverable;
  }

  /** The fate of the pending entries and of the one being pushed, for every placement. If the
      drain has something to do, a push that has loaded write_idx but not stored it when the drain
      resets it makes every pending entry go out twice, and a push that stores write_idx between
      the drain's load and its reset is accepted and never delivered. */
  lemma OverlapOutcome(t: Torn, e: Entry, x1: nat, x2: nat, x3: nat)
    requires Settled(t) && x1 <= x2 <= x3 <= PUSH_STEPS
    ensures var pending := t.slots[..t.writeIdx];
            Overlap(t, e, x1, x2, x3).delivered == t.delivered +
              (if t.ready == t.lastReady || x3 == 0 || x2 >= 3 then Deliverable(pending + [e])
               else if x3 <= 2 then Deliverable(pending) + Deliverable(pending + [e])
               else Deliverable(pending))
  {
    hide Deliverable, BothThrough, WholeDrain;
    BumpMoves(t.ready, t.lastReady);
    AfterBoth(t, e, x1, x2, x3);
    var r := BothThrough(t, e, x1, x2, x3);
    WholeDrainDelivers(r);
    var n := t.writeIdx;
    var pending := t.slots[..n];
    var first, both := Deliverable(pending), Deliverable(pending + [e]);
    assert t.slots[n := e][..n + 1] == pending + [e];
    DeliverableNone();
    if t.ready == t.lastReady && x1 < PUSH_STEPS {
      assert r.slots[..r.writeIdx] == pending + [e];
      assert t.delivered + [] + both == t.delivered + both;
    } else if x2 >= 3 {
      assert r.slots[..r.writeIdx] == [];
      assert t.delivered + both + [] == t.delivered + both;
    } else if x3 == 0 {
      DeliverableLast(pending, e);
      DeliverableLast([], e);
      assert r.slots[..r.writeIdx] == [e] == [] + [e];
      assert t.delivered + first + Deliverable([e]) == t.delivered + both;
    } else if x3 <= 2 {
      assert t.delivered + first + both == t.delivered + (first + both);
    } else {
      assert r.slots[..r.writeIdx] == [];
      assert t.delivered + first + [] == t.delivered + first;
    }
  }

  lemma {:induction false} PushingRefused(t: Torn, e: Entry, first: nat, last: nat)
    requires first <= last <= PUSH_STEPS
    requires var at := if first == 0 then t.writeIdx else t.idx; at >= |t.slots|
    ensures Pushing(t, e, first, last) == t.(idx := if first == 0 < last then t.writeIdx else t.idx)
    decreases last - first
  {
    if first < last {
      PushingRefused(PushStep(t, e, first), e, first + 1, last);
    }
  }

  /** The same for a full ring: the push is refused unless a drain with something to do is over
      before it begins, and no placement delivers anything twice. */
  lemma FullOverlapOutcome(t: Torn, e: Entry, x1: nat, x2: nat, x3: nat)
    requires 0 < |t.slots| == t.writeIdx && x1 <= x2 <= x3 <= PUSH_STEPS
    ensures Overlap(t, e, x1, x2, x3).delivered == t.delivered +
              (if t.ready == t.lastReady then []
               else if x3 == 0 then Deliverable(t.slots + [e])
               else Deliverable(t.slots))
  {
    hide Deliverable, Pushing;
    var moved := t.ready != t.lastReady;
    assert t.slots[..t.writeIdx] == t.slots;
    PushingRefused(t, e, 0, x1);
    var t1 := LoadReady(Pushing(t, e, 0, x1));
    PushingRefused(t1, e, x1, x2);
    var t2 := LoadCount(Pushing(t1, e, x1, x2));
    PushingRefused(t2, e, x2, x3);
    var t3 := ResetIndex(Pushing(t2, e, x2, x3));
    if x3 > 0 || !moved {
      PushingRefused(t3, e, x3, PUSH_STEPS);
      assert t.delivered + [] == t.delivered;
    } else {
      PushingInOne(t3, e, 0, PUSH_STEPS);
      var t4 := Pushing(t3, e, 0, PUSH_STEPS);
      BumpDiffers(t.ready);
      assert t4.slots[..1] == [e] == [] + [e];
      DeliverableLast([], e);
      DeliverableLast(t.slots, e);
      DeliverableNone();
      assert t.delivered + Deliverable(t.slots) + Deliverable([e]) == t.delivered + Deliverable(t.slots + [e]);
    }
  }

  lemma BumpDiffers(ready: Byte)
    ensures (ready + 1) % 256 != ready
  {
  }

  /** Which placements keep delivery exactly once: with entries that are passed on at stake, the
      drain must be a repeat without work, or be over before the push begins, or load the count
      after the push stored it. */
  lemma OverlapSafeIff(t: Torn, e: Entry, x1: nat, x2: nat, x3: nat)
    requires Settled(t) && x1 <= x2 <= x3 <= PUSH_STEPS
    ensures var pending := t.slots[..t.writeIdx];
            Overlap(t, e, x1, x2, x3).delivered == t.delivered + Deliverable(pending + [e])
            <==>
            || t.ready == t.lastReady || x3 == 0 || x2 >= 3
            || (if x3 <= 2 then Deliverable(pending) == [] else e.key == [])
  {
    hide Deliverable, Overlap;
    OverlapOutcome(t, e, x1, x2, x3);
    var pending := t.slots[..t.writeIdx];
    DeliverableLast(pending, e);
    var whole, got := Deliverable(pending + [e]), Overlap(t, e, x1, x2, x3).delivered;
    if got == t.delivered + whole {
      assert |got| == |t.delivered| + |whole|;
    }
  }

  /** Both failures on concrete rings: the earlier entry twice, and the pushed entry never. */
  lemma OverlapFailures(a: Entry, b: Entry)
    requires a.key != [] && b.key != []
    ensures var t := Torn([a, a], 1, 1, 0, 0, [], false, []);
            && Overlap(t, b, 1, 1, 1).delivered == [a] + [a, b]
            && Overlap(t, b, 2, 2, 4).delivered == [a]
  {
    hide Overlap;
    var t := Torn([a, a], 1, 1, 0, 0, [], false, []);
    OverlapOutcome(t, b, 1, 1, 1);
    OverlapOutcome(t, b, 2, 2, 4);
    DeliverableLast([], a);
    DeliverableLast([a], b);
    assert t.slots[..1] == [a] && [] + [a] == [a] && [a] + [b] == [a, b];
  }
}
