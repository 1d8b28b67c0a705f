/** The host's pending-LED table: writes to one LED coalesce, and each tick flushes a bounded
    number of packets into the MIDI region of the mailbox, clear of the display bytes. */
module LedQueue {
  import opened Machine

  const NOTES := 128
  const KEYS := 256               // 128 notes, then 128 CCs, in the order a flush scans them
  const MAX_PER_TICK := 16
  const SAFE_BYTES := 76
  const MIDI_BYTES := 80          // the display slice starts at byte 80
  const OUTGOING := 256

  type Color = x: int | -1 <= x < 256

  datatype Packet = Packet(cin: Byte, status: Byte, data1: Byte, data2: Byte) {
    function Bytes(): seq<Byte> { [cin, status, data1, data2] }
    function Type(): int { status - status % 16 }
  }

  /** The table as one list of optional packets. */
  type Table = t: seq<Option<Packet>> | |t| == KEYS witness Repeat(None, KEYS)

  predicate IsLed(p: Packet) {
    (p.Type() == 0x90 || p.Type() == 0xB0) && p.data1 < NOTES
  }

  function KeyOf(p: Packet): (k: nat)
    requires IsLed(p)
    ensures k < KEYS
  {
    if p.Type() == 0x90 then p.data1 else NOTES + p.data1
  }

  /** The packet does not index past the end of a colour table: other kinds index none. */
  predicate InTable(p: Packet) {
    p.Type() == 0x90 || p.Type() == 0xB0 ==> p.data1 < NOTES
  }

  function Enqueue(t: Table, p: Packet): Table {
    if IsLed(p) then t[KeyOf(p) := Some(p)] else t
  }

  datatype Flushed = Flushed(table: Table, sent: seq<Packet>)

  /** Send up to `budget` pending entries with keys in [k, end), in order. */
  function FlushRange(t: Table, k: nat, end: nat, budget: nat): (r: Flushed)
    requires k <= end <= KEYS
    ensures |r.sent| <= budget
    decreases end - k
  {
    if k == end || budget == 0 then Flushed(t, [])
    else if t[k].None? then FlushRange(t, k + 1, end, budget)
    else
      var rest := FlushRange(t[k := None], k + 1, end, budget - 1);
      Flushed(rest.table, [t[k].value] + rest.sent)
  }

  /** Packets a flush may send from this counter; C division truncates toward zero. */
  function Budget(counter: nat): nat {
    if counter > SAFE_BYTES then 0 else Min(MAX_PER_TICK, (SAFE_BYTES - counter) / 4)
  }

  function Flush(t: Table, counter: nat): Flushed {
    FlushRange(t, 0, KEYS, Budget(counter))
  }

  function PendingIn(t: Table, k: nat, end: nat): (n: nat)
    requires k <= end <= KEYS
    ensures n <= end - k
    decreases end - k
  {
    if k == end then 0 else (if t[k].Some? then 1 else 0) + PendingIn(t, k + 1, end)
  }

  function AllBytes(ps: seq<Packet>): (r: seq<Byte>)
    ensures |r| == 4 * |ps|
  {
    if ps == [] then [] else ps[0].Bytes() + AllBytes(ps[1..])
  }

  /** The buffer with bytes written at position at. */
  function Spliced<T>(buffer: seq<T>, at: nat, bytes: seq<T>): (r: seq<T>)
    requires at + |bytes| <= |buffer|
    ensures |r| == |buffer|
  {
    buffer[..at] + bytes + buffer[at + |bytes|..]
  }

  // ---- The MIDI region and its transfers ----

  /** The region, the counter, and the region as each transfer so far shipped it. */
  datatype Line<T> = Line(region: seq<T>, counter: nat, shipped: seq<seq<T>>) {
    predicate Valid() { |region| == OUTGOING && counter < MIDI_BYTES }
  }

  /** One queueMidiSend: refused if it does not fit the region, otherwise appended; at 80 bytes or
      more the region is shipped at once, and not cleared. */
  function Send<T>(line: Line<T>, bytes: seq<T>): (r: Line<T>)
    requires line.Valid()
    ensures r.Valid()
  {
    var end := line.counter + |bytes|;
    if end > OUTGOING then line
    else
      var region := Spliced(line.region, line.counter, bytes);
      if end < MIDI_BYTES then Line(region, end, line.shipped) else Line(region, 0, line.shipped + [region])
  }

  // ---- The host's globals ----

  class Queue {
    const noteColor: array<Color>
    const noteStatus: array<Byte>
    const noteCin: array<Byte>
    const ccColor: array<Color>
    const ccStatus: array<Byte>
    const ccCin: array<Byte>
    const outgoing: array<Byte>
    var counter: nat
    ghost var shipped: seq<seq<Byte>>   // the MIDI region as each transfer so far found it

    ghost predicate Valid()
      reads this
    {
      && noteColor.Length == noteStatus.Length == noteCin.Length == NOTES
      && ccColor.Length == ccStatus.Length == ccCin.Length == NOTES
      && outgoing.Length == OUTGOING
      && noteColor != ccColor
      && noteStatus != ccStatus && noteStatus != noteCin && noteStatus != ccCin && noteStatus != outgoing
      && noteCin != ccStatus && noteCin != ccCin && noteCin != outgoing
      && ccStatus != ccCin && ccStatus != outgoing && ccCin != outgoing
      && counter < MIDI_BYTES
    }

    ghost function Notes(): set<object>
      reads this
    {
      {noteColor as object, noteStatus as object, noteCin as object}
    }

    ghost function Ccs(): set<object>
      reads this
    {
      {ccColor as object, ccStatus as object, ccCin as object}
    }

    ghost function Entry(k: nat): Option<Packet>
      requires Valid() && k < KEYS
      reads this, Notes(), Ccs()
    {
      if k < NOTES then
        if noteColor[k] >= 0 then Some(Packet(noteCin[k], noteStatus[k], k, noteColor[k])) else None
      else
        var i := k - NOTES;
        if ccColor[i] >= 0 then Some(Packet(ccCin[i], ccStatus[i], i, ccColor[i])) else None
    }

    ghost function View(): Table
      requires Valid()
      reads this, Notes(), Ccs()
    {
      seq(KEYS, k requires 0 <= k < KEYS && Valid() reads this, Notes(), Ccs() => Entry(k))
    }

    ghost function OnLine(): Line<Byte>
      reads this, outgoing
    {
      Line(outgoing[..], counter, shipped)
    }

    constructor ()
      ensures Valid() && View() == Repeat(None, KEYS)
      ensures counter == 0 && shipped == []
      ensures outgoing[..] == Repeat(0, OUTGOING)
      ensures fresh(Notes()) && fresh(Ccs()) && fresh(outgoing)
    {
      noteColor := new Color[NOTES](_ => -1);
      noteStatus := new Byte[NOTES](_ => 0x90);
      noteCin := new Byte[NOTES](_ => 0x09);
      ccColor := new Color[NOTES](_ => -1);
      ccStatus := new Byte[NOTES](_ => 0xB0);
      ccCin := new Byte[NOTES](_ => 0x0B);
      outgoing := new Byte[OUTGOING](_ => 0);
      counter, shipped := 0, [];
    }

    /** queue_pending_led: the last write to an LED before a flush is the one kept. */
    method QueueLed(p: Packet)
      requires Valid() && InTable(p)
      modifies Notes(), Ccs()
      ensures Valid() && View() == Enqueue(old(View()), p)
    {
      var kind := p.status - p.status % 16;
      if kind == 0x90 {
        noteColor[p.data1] := p.data2;
        noteStatus[p.data1] := p.status;
        noteCin[p.data1] := p.cin;
      } else if kind == 0xB0 {
        ccColor[p.data1] := p.data2;
        ccStatus[p.data1] := p.status;
        ccCin[p.data1] := p.cin;
      }
    }

    /** queueMidiSend: append to the MIDI region; at 80 bytes or more the mailbox is shipped at once. */
    method QueueMidiSend(bytes: seq<Byte>) returns (n: nat)
      requires Valid()
      modifies this`counter, this`shipped, outgoing
      ensures Valid()
      ensures n == if old(counter) + |bytes| > OUTGOING then 0 else |bytes|
      ensures n == 0 ==> counter == old(counter) && shipped == old(shipped) && outgoing[..] == old(outgoing[..])
      ensures n > 0 && old(counter) + n < MIDI_BYTES ==>
                counter == old(counter) + n && shipped == old(shipped)
      ensures n > 0 && old(counter) + n >= MIDI_BYTES ==> counter == 0 && shipped == old(shipped) + [outgoing[..]]
      ensures n > 0 ==> outgoing[..] == Spliced(old(outgoing[..]), old(counter), bytes)
      ensures OnLine() == Send(old(OnLine()), bytes)
    {
      hide Spliced;
      SplicedNone(outgoing[..], counter);
      if counter + |bytes| > OUTGOING {
        return 0;
      }
      SplicedFirst(outgoing[..], counter, bytes);
      for i := 0 to |bytes|
        invariant counter == old(counter) && shipped == old(shipped)
        invariant outgoing[..] == Spliced(old(outgoing[..]), counter, bytes[..i])
      {
        SplicedNext(old(outgoing[..]), counter, bytes, i);
        ghost var before := outgoing[..];
        outgoing[counter + i] := bytes[i];
        assert outgoing[..] == before[counter + i := bytes[i]];
      }
      assert bytes[..|bytes|] == bytes;
      counter := counter + |bytes|;
      if counter >= MIDI_BYTES {
        shipped := shipped + [outgoing[..]];
        counter := 0;
      }
      n := |bytes|;
    }

    /** The end of a tick: the region is shipped and cleared. */
    method Transfer()
      requires Valid()
      modifies this`counter, this`shipped, outgoing
      ensures Valid()
      ensures OnLine() == Line(Repeat(0, OUTGOING), 0, old(shipped) + [old(outgoing[..])])
    {
      shipped := shipped + [outgoing[..]];
      counter := 0;
      for i := 0 to OUTGOING
        invariant forall j :: 0 <= j < i ==> outgoing[j] == 0
        invariant counter == 0 && shipped == old(shipped) + [old(outgoing[..])]
      {
        outgoing[i] := 0;
      }
    }

    method SendNote(i: nat)
      requires Valid() && i < NOTES && Entry(i).Some? && counter + 4 <= SAFE_BYTES
      modifies this`counter, this`shipped, outgoing, noteColor
      ensures Valid() && View() == old(View())[i := None]
      ensures counter == old(counter) + 4 && shipped == old(shipped)
      ensures outgoing[..] == Spliced(old(outgoing[..]), old(counter), old(Entry(i)).value.Bytes())
    {
      var bytes := [noteCin[i], noteStatus[i], i, noteColor[i]];
      noteColor[i] := -1;
      assert View() == old(View())[i := None];
      var _ := QueueMidiSend(bytes);
    }

    method SendCc(i: nat)
      requires Valid() && i < NOTES && Entry(NOTES + i).Some? && counter + 4 <= SAFE_BYTES
      modifies this`counter, this`shipped, outgoing, ccColor
      ensures Valid() && View() == old(View())[NOTES + i := None]
      ensures counter == old(counter) + 4 && shipped == old(shipped)
      ensures outgoing[..] == Spliced(old(outgoing[..]), old(counter), old(Entry(NOTES + i)).value.Bytes())
    {
      var bytes := [ccCin[i], ccStatus[i], i, ccColor[i]];
      ccColor[i] := -1;
      assert View() == old(View())[NOTES + i := None];
      var _ := QueueMidiSend(bytes);
    }

    /** The first loop of flush_pending_leds. */
    method FlushNotes(budget: nat) returns (sent: nat)
      requires Valid() && counter + 4 * budget <= SAFE_BYTES
      modifies this`counter, this`shipped, outgoing, noteColor
      ensures Valid() && shipped == old(shipped)
      ensures var f := FlushRange(old(View()), 0, NOTES, budget);
              && View() == f.table && sent == |f.sent|
              && counter == old(counter) + 4 * sent
              && outgoing[..] == Spliced(old(outgoing[..]), old(counter), AllBytes(f.sent))
    {
      hide FlushRange, Spliced, AllBytes;
      ghost var t0: Table, c0, out0 := View(), counter, outgoing[..];
      ghost var done: seq<Packet> := [];
      sent := 0;
      SplicedNothing(out0, c0);
      FlushStart(t0, 0, NOTES, budget);
      var i := 0;
      while i < NOTES && sent < budget
        invariant i <= NOTES && sent == |done| <= budget && Valid() && shipped == old(shipped)
        invariant counter == c0 + 4 * sent
        invariant outgoing[..] == Spliced(out0, c0, AllBytes(done))
        invariant FlushRange(t0, 0, NOTES, budget) == Resume(done, FlushRange(View(), i, NOTES, budget - sent))
        decreases NOTES - i
      {
        FlushStep(View(), i, NOTES, budget - sent, done);
        if noteColor[i] >= 0 {
          ghost var p := Entry(i).value;
          SendNote(i);
          SplicedMore(out0, c0, done, p);
          done := done + [p];
          sent := sent + 1;
        }
        i := i + 1;
      }
      FlushStop(View(), i, NOTES, budget - sent, done);
    }

    /** The second loop of flush_pending_leds. */
    method FlushCcs(budget: nat) returns (sent: nat)
      requires Valid() && counter + 4 * budget <= SAFE_BYTES
      modifies this`counter, this`shipped, outgoing, ccColor
      ensures Valid() && shipped == old(shipped)
      ensures var f := FlushRange(old(View()), NOTES, KEYS, budget);
              && View() == f.table && sent == |f.sent|
              && counter == old(counter) + 4 * sent
              && outgoing[..] == Spliced(old(outgoing[..]), old(counter), AllBytes(f.sent))
    {
      hide FlushRange, Spliced, AllBytes;
      ghost var t0: Table, c0, out0 := View(), counter, outgoing[..];
      ghost var done: seq<Packet> := [];
      sent := 0;
      SplicedNothing(out0, c0);
      FlushStart(t0, NOTES, KEYS, budget);
      var i := 0;
      while i < NOTES && sent < budget
        invariant i <= NOTES && sent == |done| <= budget && Valid() && shipped == old(shipped)
        invariant counter == c0 + 4 * sent
        invariant outgoing[..] == Spliced(out0, c0, AllBytes(done))
        invariant FlushRange(t0, NOTES, KEYS, budget) ==
                  Resume(done, FlushRange(View(), NOTES + i, KEYS, budget - sent))
        decreases NOTES - i
      {
        FlushStep(View(), NOTES + i, KEYS, budget - sent, done);
        if ccColor[i] >= 0 {
          ghost var p := Entry(NOTES + i).value;
          SendCc(i);
          SplicedMore(out0, c0, done, p);
          done := done + [p];
          sent := sent + 1;
        }
        i := i + 1;
      }
      FlushStop(View(), NOTES + i, KEYS, budget - sent, done);
    }

    /** flush_pending_leds: the table, the counter and the MIDI region become what Flush says.
        No transfer is triggered from inside, and no byte from 76 on is touched. */
    method FlushPending()
      requires Valid()
      modifies this`counter, this`shipped, outgoing, noteColor, ccColor
      ensures Valid() && shipped == old(shipped)
      ensures var f := Flush(old(View()), old(counter));
              && View() == f.table
              && counter == old(counter) + 4 * |f.sent|
              && counter <= Max(old(counter), SAFE_BYTES)
              && outgoing[..] == Spliced(old(outgoing[..]), old(counter), AllBytes(f.sent))
    {
      hide FlushRange, Spliced, AllBytes;
      var available := if counter > SAFE_BYTES then 0 else (SAFE_BYTES - counter) / 4;
      var budget := MAX_PER_TICK;
      if budget > available {
        budget := available;
      }
      ghost var t0: Table, out0, c0 := View(), outgoing[..], counter;
      SplicedNothing(out0, c0);
      FlushStart(t0, 0, KEYS, 0);
      if available <= 0 {
        return;
      }
      FlushSplit(t0, 0, NOTES, KEYS, budget);
      var n := FlushNotes(budget);
      ghost var first := FlushRange(t0, 0, NOTES, budget).sent;
      ghost var second := FlushRange(View(), NOTES, KEYS, budget - n).sent;
      var m := FlushCcs(budget - n);
      SplicedTwice(out0, c0, first, second);
    }
  }

  // ---- What a write and a send come to, field by field ----

  /** A note-on is pending under its note and a control change under its number, 128 entries on;
      the channel does not matter, no other entry changes, and nothing else is an LED. */
  lemma WriteIsPendingAt(t: Table, p: Packet)
    requires InTable(p)
    ensures 0x90 <= p.status < 0xA0 ==> Enqueue(t, p) == t[p.data1 := Some(p)]
    ensures 0xB0 <= p.status < 0xC0 ==> Enqueue(t, p) == t[128 + p.data1 := Some(p)]
    ensures !(0x90 <= p.status < 0xA0) && !(0xB0 <= p.status < 0xC0) ==> Enqueue(t, p) == t
  {
  }

  /** Packet i of those sent stands on the wire as its four bytes, in order. */
  lemma {:induction false} SentBytes(buffer: seq<Byte>, at: nat, ps: seq<Packet>, i: nat)
    requires at + 4 * |ps| <= |buffer| && i < |ps|
    ensures var r := Spliced(buffer, at, AllBytes(ps));
            r[at + 4 * i..at + 4 * i + 4] == [ps[i].cin, ps[i].status, ps[i].data1, ps[i].data2]
  {
    hide Spliced;
    SplicedAt(buffer, at, AllBytes(ps));
    BytesOfPacket(ps, i);
  }

  lemma {:induction false} BytesOfPacket(ps: seq<Packet>, i: nat)
    requires i < |ps|
    ensures AllBytes(ps)[4 * i] == ps[i].cin && AllBytes(ps)[4 * i + 1] == ps[i].status
    ensures AllBytes(ps)[4 * i + 2] == ps[i].data1 && AllBytes(ps)[4 * i + 3] == ps[i].data2
    decreases i
  {
    if i > 0 {
      BytesOfPacket(ps[1..], i - 1);
    }
  }

  /** A tick's budget is the most whole packets, up to 16, that keep the counter within 76. */
  lemma BudgetIsMost(counter: nat)
    ensures Budget(counter) <= 16 && (Budget(counter) > 0 ==> counter + 4 * Budget(counter) <= 76)
    ensures Budget(counter) < 16 ==> counter + 4 * (Budget(counter) + 1) > 76
  {
  }

  // ---- Lemmas the flush loops rest on ----

  function Resume(done: seq<Packet>, rest: Flushed): Flushed {
    Flushed(rest.table, done + rest.sent)
  }

  lemma FlushStart(t: Table, k: nat, end: nat, budget: nat)
    requires k <= end <= KEYS
    ensures FlushRange(t, k, end, budget) == Resume([], FlushRange(t, k, end, budget))
    ensures FlushRange(t, k, end, 0) == Flushed(t, [])
  {
  }

  lemma FlushStep(t: Table, k: nat, end: nat, budget: nat, done: seq<Packet>)
    requires k < end <= KEYS && budget > 0
    ensures Resume(done, FlushRange(t, k, end, budget)) ==
            if t[k].None? then Resume(done, FlushRange(t, k + 1, end, budget))
            else Resume(done + [t[k].value], FlushRange(t[k := None], k + 1, end, budget - 1))
  {
    if t[k].Some? {
      var rest := FlushRange(t[k := None], k + 1, end, budget - 1).sent;
      assert done + ([t[k].value] + rest) == (done + [t[k].value]) + rest;
    }
  }

  lemma FlushStop(t: Table, k: nat, end: nat, budget: nat, done: seq<Packet>)
    requires k <= end <= KEYS && (k == end || budget == 0)
    ensures Resume(done, FlushRange(t, k, end, budget)) == Flushed(t, done)
  {
    assert done + [] == done;
  }

  /** Flushing a range is flushing its two parts in turn, on what is left of the budget. */
  lemma {:induction false} FlushSplit(t: Table, k: nat, mid: nat, end: nat, budget: nat)
    requires k <= mid <= end <= KEYS
    ensures var first := FlushRange(t, k, mid, budget);
            FlushRange(t, k, end, budget) ==
            Resume(first.sent, FlushRange(first.table, mid, end, budget - |first.sent|))
    decreases mid - k
  {
    if k == mid || budget == 0 {
      FlushStart(t, mid, end, budget);
    } else if t[k].None? {
      FlushSplit(t, k + 1, mid, end, budget);
    } else {
      FlushSplit(t[k := None], k + 1, mid, end, budget - 1);
      var first := FlushRange(t[k := None], k + 1, mid, budget - 1);
      var rest := FlushRange(first.table, mid, end, budget - 1 - |first.sent|);
      assert [t[k].value] + (first.sent + rest.sent) == ([t[k].value] + first.sent) + rest.sent;
    }
  }

  lemma SplicedNone<T>(buffer: seq<T>, at: nat)
    requires at <= |buffer|
    ensures Spliced(buffer, at, []) == buffer
  {
  }

  lemma SplicedFirst(buffer: seq<Byte>, at: nat, bytes: seq<Byte>)
    requires at <= |buffer|
    ensures Spliced(buffer, at, bytes[..0]) == buffer
  {
  }

  lemma SplicedNext(buffer: seq<Byte>, at: nat, bytes: seq<Byte>, i: nat)
    requires i < |bytes| && at + |bytes| <= |buffer|
    ensures Spliced(buffer, at, bytes[..i])[at + i := bytes[i]] == Spliced(buffer, at, bytes[..i + 1])
  {
  }

  lemma SplicedNothing(buffer: seq<Byte>, at: nat)
    requires at <= |buffer|
    ensures Spliced(buffer, at, AllBytes([])) == buffer
  {
  }

  lemma AllBytesHead(ps: seq<Packet>)
    ensures ps != [] ==> AllBytes(ps) == ps[0].Bytes() + AllBytes(ps[1..])
    ensures ps == [] ==> AllBytes(ps) == []
  {
  }

  lemma {:induction false} AllBytesAppend(a: seq<Packet>, b: seq<Packet>)
    ensures AllBytes(a + b) == AllBytes(a) + AllBytes(b)
    decreases |a|
  {
    hide AllBytes;
    if a == [] {
      assert a + b == b;
      AllBytesHead(a);
    } else {
      AllBytesAppend(a[1..], b);
      assert (a + b)[1..] == a[1..] + b;
      AllBytesHead(a);
      AllBytesHead(a + b);
      assert a[0].Bytes() + (AllBytes(a[1..]) + AllBytes(b)) == a[0].Bytes() + AllBytes(a[1..]) + AllBytes(b);
    }
  }

  lemma SplicedTwice(buffer: seq<Byte>, at: nat, a: seq<Packet>, b: seq<Packet>)
    requires at + 4 * |a| + 4 * |b| <= |buffer|
    ensures Spliced(Spliced(buffer, at, AllBytes(a)), at + 4 * |a|, AllBytes(b)) == Spliced(buffer, at, AllBytes(a + b))
  {
    hide AllBytes;
    AllBytesAppend(a, b);
    SpliceJoin(buffer, at, AllBytes(a), AllBytes(b));
  }

  lemma SpliceJoin(buffer: seq<Byte>, at: nat, x: seq<Byte>, y: seq<Byte>)
    requires at + |x| + |y| <= |buffer|
    ensures Spliced(Spliced(buffer, at, x), at + |x|, y) == Spliced(buffer, at, x + y)
  {
  }

  lemma SplicedMore(buffer: seq<Byte>, at: nat, done: seq<Packet>, p: Packet)
    requires at + 4 * |done| + 4 <= |buffer|
    ensures Spliced(Spliced(buffer, at, AllBytes(done)), at + 4 * |done|, p.Bytes()) ==
            Spliced(buffer, at, AllBytes(done + [p]))
  {
    assert AllBytes([p]) == p.Bytes();
    SplicedTwice(buffer, at, done, [p]);
  }

  // ---- What one flush sends ----

  /** Every pending entry sits under its own key. */
  ghost predicate WellKeyed(t: Table) {
    forall k :: 0 <= k < KEYS && t[k].Some? ==> IsLed(t[k].value) && KeyOf(t[k].value) == k
  }

  /** The last packet of ps that is for LED k. */
  function LastFor(ps: seq<Packet>, k: nat): Option<Packet> {
    if ps == [] then None
    else
      var p := ps[|ps| - 1];
      if IsLed(p) && KeyOf(p) == k then Some(p) else LastFor(ps[..|ps| - 1], k)
  }

  lemma {:induction false} LastForAppend(a: seq<Packet>, b: seq<Packet>, k: nat)
    ensures LastFor(a + b, k) == if LastFor(b, k).Some? then LastFor(b, k) else LastFor(a, k)
    decreases |b|
  {
    if b == [] {
      assert a + b == a;
    } else {
      var n := |b| - 1;
      assert (a + b)[..|a + b| - 1] == a + b[..n];
      LastForAppend(a, b[..n], k);
    }
  }

  predicate SentBy(t: Table, from: nat, budget: nat, k: nat)
    requires from <= k < KEYS
  {
    t[k].Some? && PendingIn(t, from, k) < budget
  }

  lemma {:induction false} PendingFrame(t: Table, u: Table, from: nat, end: nat)
    requires from <= end <= KEYS && forall j :: from <= j < end ==> t[j] == u[j]
    ensures PendingIn(t, from, end) == PendingIn(u, from, end)
    decreases end - from
  {
    if from < end {
      PendingFrame(t, u, from + 1, end);
    }
  }

  /** Exactly the pending LEDs with fewer than `budget` pending ones before them are taken
      off the table, and what is sent for each is what was pending for it. */
  lemma {:induction false} FlushSendsIff(t: Table, from: nat, budget: nat, k: nat)
    requires from <= KEYS && k < KEYS && WellKeyed(t)
    ensures var f := FlushRange(t, from, KEYS, budget);
            var taken := from <= k && SentBy(t, from, budget, k);
            && f.table[k] == (if taken then None else t[k])
            && LastFor(f.sent, k) == (if taken then t[k] else None)
    decreases KEYS - from
  {
    if from == KEYS || budget == 0 {
    } else if t[from].None? {
      FlushSendsIff(t, from + 1, budget, k);
    } else {
      var u: Table := t[from := None];
      FlushSendsIff(u, from + 1, budget - 1, k);
      if from < k {
        PendingFrame(t, u, from + 1, k);
      }
      var rest := FlushRange(u, from + 1, KEYS, budget - 1).sent;
      assert t[from].value == [t[from].value][0];
      LastForOne(t[from].value, k);
      LastForAppend([t[from].value], rest, k);
    }
  }

  lemma LastForOne(p: Packet, k: nat)
    ensures LastFor([p], k) == if IsLed(p) && KeyOf(p) == k then Some(p) else None
  {
    assert LastFor([p][..0], k) == None;
  }

  /** A flush sends min(budget, pending) packets and leaves the rest. */
  lemma {:induction false} FlushCounts(t: Table, from: nat, budget: nat)
    requires from <= KEYS
    ensures var f := FlushRange(t, from, KEYS, budget);
            && |f.sent| == Min(budget, PendingIn(t, from, KEYS))
            && PendingIn(f.table, from, KEYS) == PendingIn(t, from, KEYS) - |f.sent|
            && forall j :: 0 <= j < from ==> f.table[j] == t[j]
    decreases KEYS - from
  {
    if from == KEYS || budget == 0 {
    } else if t[from].None? {
      FlushCounts(t, from + 1, budget);
    } else {
      var u: Table := t[from := None];
      FlushCounts(u, from + 1, budget - 1);
      PendingFrame(t, u, from + 1, KEYS);
    }
  }

  // ---- Runs ----

  datatype Event = Write(p: Packet) | Tick(counter: nat)

  /** The table, everything queued, and everything flushed onto the wire, oldest first. */
  datatype State = State(table: Table, written: seq<Packet>, wire: seq<Packet>)

  function Next(s: State, e: Event): State {
    match e
    case Write(p) => if InTable(p) then State(Enqueue(s.table, p), s.written + [p], s.wire) else s
    case Tick(counter) =>
      var f := Flush(s.table, counter);
      State(f.table, s.written, s.wire + f.sent)
  }

  function After(events: seq<Event>): State {
    if events == [] then State(Repeat(None, KEYS), [], [])
    else Next(After(events[..|events| - 1]), events[|events| - 1])
  }

  /** LED k's last queued packet is pending, or else it is the last one sent for that LED. */
  ghost predicate Faithful(s: State, k: nat)
    requires k < KEYS
  {
    if s.table[k].Some? then LastFor(s.written, k) == s.table[k]
    else LastFor(s.written, k) == LastFor(s.wire, k)
  }

  lemma WriteKeeps(s: State, p: Packet, k: nat)
    requires k < KEYS && WellKeyed(s.table) && Faithful(s, k) && InTable(p)
    ensures WellKeyed(Next(s, Write(p)).table) && Faithful(Next(s, Write(p)), k)
  {
    LastForOne(p, k);
    LastForAppend(s.written, [p], k);
  }

  lemma TickKeeps(s: State, counter: nat, k: nat)
    requires k < KEYS && WellKeyed(s.table) && Faithful(s, k)
    ensures WellKeyed(Next(s, Tick(counter)).table) && Faithful(Next(s, Tick(counter)), k)
  {
    hide LastFor, FlushRange, Budget, PendingIn;
    var f := Flush(s.table, counter);
    forall j | 0 <= j < KEYS && f.table[j].Some?
      ensures IsLed(f.table[j].value) && KeyOf(f.table[j].value) == j
    {
      FlushSendsIff(s.table, 0, Budget(counter), j);
    }
    FlushSendsIff(s.table, 0, Budget(counter), k);
    LastForAppend(s.wire, f.sent, k);
  }

  /** The table refines writing each LED straight through: after any run of writes and ticks,
      every LED's last queued packet is pending or is the last packet sent for it. So nothing
      stale is ever the latest, and an LED that was never written is never sent. */
  lemma {:induction false} WriteThrough(events: seq<Event>, k: nat)
    requires k < KEYS
    ensures var s := After(events); WellKeyed(s.table) && Faithful(s, k)
    decreases |events|
  {
    hide Next, LastFor;
    if events != [] {
      var s := After(events[..|events| - 1]);
      WriteThrough(events[..|events| - 1], k);
      match events[|events| - 1]
      case Write(p) =>
        if InTable(p) {
          WriteKeeps(s, p, k);
        } else {
          NextIgnores(s, p);
        }
      case Tick(counter) => TickKeeps(s, counter, k);
    }
  }

  lemma NextIgnores(s: State, p: Packet)
    requires !InTable(p)
    ensures Next(s, Write(p)) == s
  {
  }

  // ---- Draining ----

  /** The table after one flush per counter, with nothing written in between. */
  function Drained(t: Table, counters: seq<nat>): Table {
    if counters == [] then t
    else Flush(Drained(t, counters[..|counters| - 1]), counters[|counters| - 1]).table
  }

  function TotalBudget(counters: seq<nat>): nat {
    if counters == [] then 0 else TotalBudget(counters[..|counters| - 1]) + Budget(counters[|counters| - 1])
  }

  /** With nothing new written, each tick takes off as many entries as its counter leaves room for. */
  lemma {:induction false} TableDrains(t: Table, counters: seq<nat>)
    ensures PendingIn(Drained(t, counters), 0, KEYS) == Max(0, PendingIn(t, 0, KEYS) - TotalBudget(counters))
    decreases |counters|
  {
    hide FlushRange, PendingIn, Budget;
    if counters != [] {
      var n := |counters| - 1;
      TableDrains(t, counters[..n]);
      FlushCounts(Drained(t, counters[..n]), 0, Budget(counters[n]));
    }
  }

  /** So the table is empty exactly when the budgets add up to what was pending. */
  lemma EmptiedIff(t: Table, counters: seq<nat>)
    ensures (forall k :: 0 <= k < KEYS ==> Drained(t, counters)[k] == None)
            <==> TotalBudget(counters) >= PendingIn(t, 0, KEYS)
  {
    hide PendingIn, Drained;
    TableDrains(t, counters);
    NonePendingIff(Drained(t, counters), 0);
  }

  lemma {:induction false} NonePendingIff(t: Table, from: nat)
    requires from <= KEYS
    ensures PendingIn(t, from, KEYS) == 0 <==> forall k :: from <= k < KEYS ==> t[k] == None
    decreases KEYS - from
  {
    if from < KEYS {
      NonePendingIff(t, from + 1);
    }
  }

  /** With the counter at 0 every tick does the most it can: 16 entries. */
  lemma {:induction false} IdleTicksBudget(n: nat)
    ensures TotalBudget(Repeat<nat>(0, n)) == MAX_PER_TICK * n
  {
    if n > 0 {
      assert Repeat<nat>(0, n)[..n - 1] == Repeat<nat>(0, n - 1);
      IdleTicksBudget(n - 1);
    }
  }

  lemma NoBudgetIff(counter: nat)
    ensures Budget(counter) == 0 <==> counter > SAFE_BYTES - 4
  {
  }

  /** And the least: with every tick's counter above 72 nothing is ever sent. */
  lemma {:induction false} BusyLineStalls(t: Table, counters: seq<nat>)
    requires forall c :: c in counters ==> c > SAFE_BYTES - 4
    ensures Drained(t, counters) == t
    decreases |counters|
  {
    hide FlushRange, Budget;
    if counters != [] {
      var n := |counters| - 1;
      assert counters[n] in counters && forall c :: c in counters[..n] ==> c in counters;
      BusyLineStalls(t, counters[..n]);
      NoBudgetIff(counters[n]);
      FlushStart(t, 0, KEYS, 0);
    }
  }

  lemma {:induction false} AllPending(t: Table, from: nat, end: nat)
    requires from <= end <= KEYS && forall j :: from <= j < end ==> t[j].Some?
    ensures PendingIn(t, from, end) == end - from
    decreases end - from
  {
    if from < end {
      AllPending(t, from + 1, end);
    }
  }

  lemma {:induction false} PendingSplit(t: Table, from: nat, mid: nat, end: nat)
    requires from <= mid <= end <= KEYS
    ensures PendingIn(t, from, end) == PendingIn(t, from, mid) + PendingIn(t, mid, end)
    decreases mid - from
  {
    if from < mid {
      PendingSplit(t, from + 1, mid, end);
    }
  }

  /** One write to each of the 16 lowest notes, in any colours. */
  predicate LowNotes(ps: seq<Packet>) {
    |ps| == MAX_PER_TICK && forall i :: 0 <= i < |ps| ==> ps[i].Type() == 0x90 && ps[i].data1 == i
  }

  function Writes(ps: seq<Packet>): (r: seq<Event>)
    ensures |r| == |ps|
  {
    seq(|ps|, i requires 0 <= i < |ps| => Write(ps[i]))
  }

  datatype Round = Round(ps: seq<Packet>, counter: nat)

  /** Round by round: the writes, then a tick that finds the counter anywhere. */
  function Rounds(rounds: seq<Round>): seq<Event> {
    if rounds == [] then []
    else
      var last := rounds[|rounds| - 1];
      Rounds(rounds[..|rounds| - 1]) + Writes(last.ps) + [Tick(last.counter)]
  }

  lemma {:induction false} WritesFillLowNotes(events: seq<Event>, ps: seq<Packet>, i: nat)
    requires LowNotes(ps) && i <= |ps|
    ensures var s, u := After(events), After(events + Writes(ps)[..i]);
            && u.wire == s.wire
            && (forall j :: 0 <= j < i ==> u.table[j].Some?)
            && (forall j :: i <= j < KEYS ==> u.table[j] == s.table[j])
  {
    hide After;
    if i == 0 {
      assert events + Writes(ps)[..0] == events;
    } else {
      WritesFillLowNotes(events, ps, i - 1);
      assert Writes(ps)[..i] == Writes(ps)[..i - 1] + [Write(ps[i - 1])];
      AfterMore(events + Writes(ps)[..i - 1], Write(ps[i - 1]));
      assert events + Writes(ps)[..i] == events + Writes(ps)[..i - 1] + [Write(ps[i - 1])];
    }
  }

  lemma AfterMore(events: seq<Event>, e: Event)
    ensures After(events + [e]) == Next(After(events), e)
  {
    hide Next;
    assert (events + [e])[..|events|] == events;
  }

  /** The scan order is not fair: after any run, while the 16 lowest notes are rewritten before
      every tick, a higher LED is neither sent nor taken off the table, for as long as that goes on. */
  lemma {:induction false} HigherKeysStarve(before: seq<Event>, rounds: seq<Round>, k: nat)
    requires MAX_PER_TICK <= k < KEYS && forall r :: r in rounds ==> LowNotes(r.ps)
    ensures var s, u := After(before), After(before + Rounds(rounds));
            u.table[k] == s.table[k] && LastFor(u.wire, k) == LastFor(s.wire, k)
    decreases |rounds|
  {
    hide After, LastFor, LowNotes;
    if rounds == [] {
      assert before + Rounds(rounds) == before;
    } else {
      var n := |rounds| - 1;
      var last := rounds[n];
      assert last in rounds;
      HigherKeysStarve(before, rounds[..n], k);
      var earlier := before + Rounds(rounds[..n]);
      StarvingRound(earlier, last, k);
      assert before + Rounds(rounds) == earlier + Writes(last.ps) + [Tick(last.counter)];
    }
  }

  lemma StarvingRound(earlier: seq<Event>, r: Round, k: nat)
    requires MAX_PER_TICK <= k < KEYS && LowNotes(r.ps)
    ensures var s, u := After(earlier), After(earlier + Writes(r.ps) + [Tick(r.counter)]);
            u.table[k] == s.table[k] && LastFor(u.wire, k) == LastFor(s.wire, k)
  {
    hide After, LastFor, LowNotes, FlushRange, PendingIn;
    LowNotesAre16(r.ps);
    assert Writes(r.ps)[..MAX_PER_TICK] == Writes(r.ps);
    WritesFillLowNotes(earlier, r.ps, MAX_PER_TICK);
    var written := earlier + Writes(r.ps);
    var t := After(written).table;
    AllPending(t, 0, MAX_PER_TICK);
    PendingSplit(t, 0, MAX_PER_TICK, k);
    WriteThrough(written, k);
    AfterMore(written, Tick(r.counter));
    FlushSendsIff(t, 0, Budget(r.counter), k);
    LastForAppend(After(written).wire, FlushRange(t, 0, KEYS, Budget(r.counter)).sent, k);
  }

  lemma LowNotesAre16(ps: seq<Packet>)
    requires LowNotes(ps)
    ensures |ps| == MAX_PER_TICK
  {
  }

  // ---- What a tick ships ----

  /** The line with every byte named by its place in the order of acceptance, and None for a byte
      that is clear. `next` counts the bytes accepted. */
  datatype Traced = Traced(line: Line<Option<nat>>, next: nat)

  /** The accepted bytes next, next + 1, ... of a message. */
  function Named(next: nat, length: nat): (r: seq<Option<nat>>)
    ensures |r| == length
  {
    seq(length, i requires i >= 0 => Some(next + i))
  }

  /** From a cleared region: messages of these lengths, the flush's own four bytes at a time among
      them, in one tick. */
  function Queued(lengths: seq<nat>): (r: Traced)
    ensures r.line.Valid()
  {
    if lengths == [] then Traced(Line(Repeat(None, OUTGOING), 0, []), 0)
    else
      var q, length := Queued(lengths[..|lengths| - 1]), lengths[|lengths| - 1];
      if q.line.counter + length > OUTGOING then q
      else Traced(Send(q.line, Named(q.next, length)), q.next + length)
  }

  /** Everything the tick ships, its own transfer last. */
  function Transfers(lengths: seq<nat>): seq<seq<Option<nat>>> {
    Queued(lengths).line.shipped + [Queued(lengths).line.region]
  }

  function TimesShipped(all: seq<seq<Option<nat>>>, byte: nat): nat {
    if all == [] then 0
    else TimesShipped(all[..|all| - 1], byte) + if Some(byte) in all[|all| - 1] then 1 else 0
  }

  /** Before the first transfer the region holds exactly the accepted bytes in order; after it,
      byte 79 of the region is what the last transfer shipped there. */
  ghost predicate Sound(q: Traced) {
    var l := q.line;
    && l.Valid()
    && (q.next < MIDI_BYTES <==> l.shipped == [])
    && (l.shipped == [] ==> l.counter == q.next && forall j :: 0 <= j < q.next ==> l.region[j] == Some(j))
    && (forall j :: 0 <= j < l.counter ==> l.region[j].Some? && l.region[j].value < q.next)
    && (l.shipped != [] ==>
          var last := l.shipped[|l.shipped| - 1];
          && |last| == OUTGOING && last[MIDI_BYTES - 1] == l.region[MIDI_BYTES - 1]
          && last[MIDI_BYTES - 1].Some? && last[MIDI_BYTES - 1].value < q.next)
  }

  lemma SplicedAt<T>(buffer: seq<T>, at: nat, bytes: seq<T>)
    requires at + |bytes| <= |buffer|
    ensures forall j :: 0 <= j < |buffer| ==>
              Spliced(buffer, at, bytes)[j] == if at <= j < at + |bytes| then bytes[j - at] else buffer[j]
  {
  }

  lemma SendKeepsSound(q: Traced, length: nat)
    requires Sound(q) && q.line.counter + length <= OUTGOING
    ensures Sound(Traced(Send(q.line, Named(q.next, length)), q.next + length))
  {
    hide Spliced;
    SplicedAt(q.line.region, q.line.counter, Named(q.next, length));
  }

  lemma {:induction false} QueuedIsSound(lengths: seq<nat>)
    ensures Sound(Queued(lengths))
    decreases |lengths|
  {
    hide Sound, Send;
    if lengths == [] {
      ClearIsSound();
    } else {
      var n := |lengths| - 1;
      QueuedIsSound(lengths[..n]);
      if Queued(lengths[..n]).line.counter + lengths[n] <= OUTGOING {
        SendKeepsSound(Queued(lengths[..n]), lengths[n]);
      }
    }
  }

  lemma ClearIsSound()
    ensures Sound(Queued([]))
  {
  }

  lemma TimesShippedMore(all: seq<seq<Option<nat>>>, region: seq<Option<nat>>, byte: nat)
    ensures TimesShipped(all + [region], byte) == TimesShipped(all, byte) + if Some(byte) in region then 1 else 0
  {
    assert (all + [region])[..|all|] == all;
  }

  lemma ShippedAtLeastOnce(all: seq<seq<Option<nat>>>, byte: nat)
    requires all != [] && Some(byte) in all[|all| - 1]
    ensures TimesShipped(all, byte) >= 1
  {
  }

  lemma NeverShipped(byte: nat)
    ensures TimesShipped([], byte) == 0
  {
  }

  /** Every byte accepted in a tick is shipped exactly once if and only if fewer than 80 are: the
      first transfer inside the tick leaves its bytes in the region for the next one. */
  lemma ShippedOnceIff(lengths: seq<nat>)
    ensures (forall byte :: 0 <= byte < Queued(lengths).next ==> TimesShipped(Transfers(lengths), byte) == 1)
            <==> Queued(lengths).next < MIDI_BYTES
  {
    hide Queued, TimesShipped;
    QueuedIsSound(lengths);
    var q := Queued(lengths);
    if q.line.shipped == [] {
      forall byte: nat | byte < q.next
        ensures TimesShipped(Transfers(lengths), byte) == 1
      {
        assert q.line.region[byte] == Some(byte);
        NeverShipped(byte);
        TimesShippedMore([], q.line.region, byte);
      }
    } else {
      var byte := q.line.region[MIDI_BYTES - 1].value;
      var last := q.line.shipped[|q.line.shipped| - 1];
      assert last[MIDI_BYTES - 1] == Some(byte) == q.line.region[MIDI_BYTES - 1];
      ShippedAtLeastOnce(q.line.shipped, byte);
      TimesShippedMore(q.line.shipped, q.line.region, byte);
      assert byte < q.next && TimesShipped(Transfers(lengths), byte) >= 2;
    }
  }

  /** A tick that stalls the flush without any transfer of its own: 19 packets. */
  lemma NineteenPacketsStall()
    ensures var q := Queued(Repeat<nat>(4, 19)); q.line.shipped == [] && Budget(q.line.counter) == 0
  {
    QueuedIsSound(Repeat<nat>(4, 19));
    PacketsAccepted(19);
  }

  lemma {:induction false} PacketsAccepted(n: nat)
    ensures Queued(Repeat<nat>(4, n)).next == 4 * n
  {
    hide Send;
    if n > 0 {
      assert Repeat<nat>(4, n)[..n - 1] == Repeat<nat>(4, n - 1);
      PacketsAccepted(n - 1);
    }
  }
}
