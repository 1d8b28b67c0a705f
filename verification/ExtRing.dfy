/** The lock-free single-producer single-consumer ring that carries external MIDI
    packets from an overtake DSP to the SPI mailbox.

    Producer and consumer run on different threads, so the model is a state machine
    in which one step is one load or one store of shared memory; packets are copied
    byte by byte, so a torn packet is representable. The fields `accepted`,
    `drained`, `released`, `seen`, `limit`, `base` and `before` are history: no
    step's effect on the ring, the cursors or the mailbox reads them. */
module ExtRing {
  import opened Machine

  const CAPACITY := 64
  const SLOTS := 20

  /** One 4-byte USB-MIDI packet. */
  datatype Packet = Packet(b0: Byte, b1: Byte, b2: Byte, b3: Byte)

  const EMPTY := Packet(0, 0, 0, 0)

  /** The packet p with byte i replaced by that of q: one iteration of a 4-byte copy. */
  function CopyByte(p: Packet, q: Packet, i: nat): Packet
    requires i < 4
  {
    match i
    case 0 => p.(b0 := q.b0)
    case 1 => p.(b1 := q.b1)
    case 2 => p.(b2 := q.b2)
    case _ => p.(b3 := q.b3)
  }

  /** p and q agree on their first n bytes. */
  predicate AgreeTo(p: Packet, q: Packet, n: nat) {
    && (n > 0 ==> p.b0 == q.b0)
    && (n > 1 ==> p.b1 == q.b1)
    && (n > 2 ==> p.b2 == q.b2)
    && (n > 3 ==> p.b3 == q.b3)
  }

  /** Program counter and locals of overtake_midi_send_external. */
  datatype ProducerPc =
    | Idle
    | LoadedHead(msg: Packet, head: Word)
    | LoadedTail(msg: Packet, head: Word, tail: Word, seen: nat)
    | Writing(msg: Packet, head: Word, done: nat)

  /** Program counter and locals of overtake_ext_drain_into_shadow. */
  datatype ConsumerPc =
    | Waiting
    | GotTail(tail: Word)
    | Scanning(tail: Word, head: Word, slot: nat, limit: nat)
    | Copying(tail: Word, head: Word, slot: nat, done: nat, limit: nat)

  datatype Producer = Producer(
    pc: ProducerPc,
    accepted: seq<Packet>,   // packets whose head bump has been stored, in order
    refused: nat)            // overtake_ext_drops

  datatype Consumer = Consumer(
    pc: ConsumerPc,
    mailbox: seq<Packet>,    // the 80-byte MIDI_OUT region
    drained: seq<Packet>,    // packets as they stand in the mailbox once copied
    released: nat,           // packets covered by the stored tail
    base: nat,               // |drained| when the current drain began
    before: seq<Packet>)     // mailbox when the current drain began

  /** Shared memory, and each thread's own state. */
  datatype State = State(ring: seq<Packet>, head: Word, tail: Word, p: Producer, c: Consumer)

  datatype Step =
    | Send(msg: Packet)                   // a producer call arrives
    | Produce                             // the producer's next load or store
    | Drain(mailbox: seq<Packet>)         // a drain call arrives with this MIDI_OUT region
    | Consume                             // the consumer's next load or store

  function Init(): State {
    State(Repeat(EMPTY, CAPACITY), 0, 0,
          Producer(Idle, [], 0),
          Consumer(Waiting, Repeat(EMPTY, SLOTS), [], 0, 0, Repeat(EMPTY, SLOTS)))
  }

  ghost predicate Shape(s: State) {
    |s.ring| == CAPACITY && |s.c.mailbox| == SLOTS && |s.c.before| == SLOTS
    && (s.p.pc.Writing? ==> s.p.pc.done <= 4)
    && (s.c.pc.Copying? ==> s.c.pc.slot < SLOTS && s.c.pc.done <= 4)
  }

  function ProduceStep(s: State): (t: State)
    requires Shape(s)
    ensures Shape(t) && t.c == s.c && t.tail == s.tail
  {
    match s.p.pc
    case Idle => s
    case LoadedHead(msg, head) => s.(p := s.p.(pc := LoadedTail(msg, head, s.tail, s.c.released)))
    case LoadedTail(msg, head, tail, _) =>
      if Wrap32(head - tail) >= CAPACITY then s.(p := s.p.(pc := Idle, refused := s.p.refused + 1))
      else s.(p := s.p.(pc := Writing(msg, head, 0)))
    case Writing(msg, head, done) =>
      if done < 4 then
        var i := head % CAPACITY;
        s.(ring := s.ring[i := CopyByte(s.ring[i], msg, done)], p := s.p.(pc := Writing(msg, head, done + 1)))
      else
        s.(head := Wrap32(head + 1), p := s.p.(pc := Idle, accepted := s.p.accepted + [msg]))
  }

  function ConsumeStep(s: State): (t: State)
    requires Shape(s)
    ensures Shape(t) && t.p == s.p && t.head == s.head && t.ring == s.ring
  {
    var c := s.c;
    match c.pc
    case Waiting => s
    case GotTail(tail) =>
      if tail == s.head then s.(c := c.(pc := Waiting))
      else s.(c := c.(pc := Scanning(tail, s.head, 0, |s.p.accepted|)))
    case Scanning(tail, head, slot, limit) =>
      if tail == head || slot >= SLOTS then
        s.(tail := tail, c := c.(pc := Waiting, released := |c.drained|))
      else if c.mailbox[slot] != EMPTY then s.(c := c.(pc := Scanning(tail, head, slot + 1, limit)))
      else s.(c := c.(pc := Copying(tail, head, slot, 0, limit)))
    case Copying(tail, head, slot, done, limit) =>
      if done < 4 then
        s.(c := c.(mailbox := c.mailbox[slot := CopyByte(c.mailbox[slot], s.ring[tail % CAPACITY], done)],
                   pc := Copying(tail, head, slot, done + 1, limit)))
      else
        s.(c := c.(drained := c.drained + [c.mailbox[slot]],
                   pc := Scanning(Wrap32(tail + 1), head, slot + 1, limit)))
  }

  /** One step; a call arriving while its thread is busy is ignored, since each side is one thread. */
  function Next(s: State, step: Step): (t: State)
    requires Shape(s)
    ensures Shape(t)
  {
    match step
    case Send(msg) => if s.p.pc.Idle? then s.(p := s.p.(pc := LoadedHead(msg, s.head))) else s
    case Produce => ProduceStep(s)
    case Drain(mailbox) =>
      if s.c.pc.Waiting? && |mailbox| == SLOTS then
        s.(c := s.c.(pc := GotTail(s.tail), mailbox := mailbox, before := mailbox, base := |s.c.drained|))
      else s
    case Consume => ConsumeStep(s)
  }

  function Run(s: State, steps: seq<Step>): (t: State)
    requires Shape(s)
    ensures Shape(t)
    decreases |steps|
  {
    if steps == [] then s else Run(Next(s, steps[0]), steps[1..])
  }

  // ---- Reference: what one drain should do to the mailbox ----

  datatype Placed = Placed(mailbox: seq<Packet>, count: nat)

  /** Put pkts, in order, into the empty slots of mb at or after slot. */
  function Place(mb: seq<Packet>, slot: nat, pkts: seq<Packet>): (r: Placed)
    requires |mb| == SLOTS
    ensures |r.mailbox| == SLOTS && r.count <= |pkts|
    decreases SLOTS - slot
  {
    if slot >= SLOTS || pkts == [] then Placed(mb, 0)
    else if mb[slot] != EMPTY then Place(mb, slot + 1, pkts)
    else
      var rest := Place(mb[slot := pkts[0]], slot + 1, pkts[1..]);
      Placed(rest.mailbox, rest.count + 1)
  }

  /** The entries of `after` at the positions where `before` was empty, from slot on. */
  function FreedEntries(before: seq<Packet>, after: seq<Packet>, slot: nat): seq<Packet>
    requires |before| == |after| == SLOTS
    decreases SLOTS - slot
  {
    if slot >= SLOTS then []
    else if before[slot] == EMPTY then [after[slot]] + FreedEntries(before, after, slot + 1)
    else FreedEntries(before, after, slot + 1)
  }

  function FreeCount(mb: seq<Packet>, slot: nat): (n: nat)
    requires |mb| == SLOTS
    ensures n <= SLOTS
    ensures slot <= SLOTS ==> n <= SLOTS - slot
    decreases SLOTS - slot
  {
    if slot >= SLOTS then 0
    else (if mb[slot] == EMPTY then 1 else 0) + FreeCount(mb, slot + 1)
  }

  /** FreedEntries and FreeCount look only at positions from slot on. */
  lemma {:induction false} FreedEntriesFrame(b1: seq<Packet>, b2: seq<Packet>, after: seq<Packet>, slot: nat)
    requires |b1| == |b2| == |after| == SLOTS
    requires forall i :: slot <= i < SLOTS ==> b1[i] == b2[i]
    ensures FreedEntries(b1, after, slot) == FreedEntries(b2, after, slot)
    ensures FreeCount(b1, slot) == FreeCount(b2, slot)
    decreases SLOTS - slot
  {
    if slot < SLOTS {
      FreedEntriesFrame(b1, b2, after, slot + 1);
    }
  }

  /** Place stops only when the packets or the empty slots run out. */
  lemma {:induction false} PlaceCount(mb: seq<Packet>, slot: nat, pkts: seq<Packet>)
    requires |mb| == SLOTS && slot <= SLOTS
    ensures Place(mb, slot, pkts).count == Min(|pkts|, FreeCount(mb, slot))
    decreases SLOTS - slot
  {
    if slot < SLOTS {
      if pkts != [] && mb[slot] == EMPTY {
        var mb' := mb[slot := pkts[0]];
        PlaceCount(mb', slot + 1, pkts[1..]);
        FreedEntriesFrame(mb, mb', mb, slot + 1);
      } else {
        PlaceCount(mb, slot + 1, pkts);
      }
    }
  }

  /** Place leaves every occupied slot, and every slot before its start, as it was. */
  lemma {:induction false} PlaceFrame(mb: seq<Packet>, slot: nat, pkts: seq<Packet>)
    requires |mb| == SLOTS && slot <= SLOTS
    ensures var r := Place(mb, slot, pkts);
            forall i :: 0 <= i < SLOTS && (i < slot || mb[i] != EMPTY) ==> r.mailbox[i] == mb[i]
    decreases SLOTS - slot
  {
    if slot < SLOTS && pkts != [] {
      if mb[slot] == EMPTY {
        var mb' := mb[slot := pkts[0]];
        PlaceFrame(mb', slot + 1, pkts[1..]);
        assert forall i :: 0 <= i < SLOTS && (i < slot || mb[i] != EMPTY) ==> mb'[i] == mb[i];
      } else {
        PlaceFrame(mb, slot + 1, pkts);
      }
    }
  }

  lemma {:induction false} UnfilledStayEmpty(mb: seq<Packet>, slot: nat)
    requires |mb| == SLOTS && slot <= SLOTS
    ensures FreedEntries(mb, mb, slot) == Repeat(EMPTY, FreeCount(mb, slot))
    decreases SLOTS - slot
  {
    if slot < SLOTS {
      UnfilledStayEmpty(mb, slot + 1);
    }
  }

  /** Read in slot order, the slots that were empty now hold the placed prefix of pkts
      followed by slots that stayed empty. */
  lemma {:induction false} PlaceFillsEmptySlots(mb: seq<Packet>, slot: nat, pkts: seq<Packet>)
    requires |mb| == SLOTS && slot <= SLOTS
    ensures var r := Place(mb, slot, pkts);
            && r.count <= FreeCount(mb, slot)
            && FreedEntries(mb, r.mailbox, slot) == pkts[..r.count] + Repeat(EMPTY, FreeCount(mb, slot) - r.count)
    decreases SLOTS - slot, 1
  {
    var r := Place(mb, slot, pkts);
    if pkts == [] {
      UnfilledStayEmpty(mb, slot);
    } else if slot < SLOTS && mb[slot] != EMPTY {
      PlaceFillsEmptySlots(mb, slot + 1, pkts);
    } else if slot < SLOTS {
      FillFirst(mb, slot, pkts);
    }
  }

  lemma PlaceFirst(mb: seq<Packet>, slot: nat, pkts: seq<Packet>)
    requires |mb| == SLOTS && slot < SLOTS && pkts != [] && mb[slot] == EMPTY
    ensures var q := Place(mb[slot := pkts[0]], slot + 1, pkts[1..]);
            Place(mb, slot, pkts) == Placed(q.mailbox, q.count + 1)
  {
  }

  lemma {:induction false} FillFirst(mb: seq<Packet>, slot: nat, pkts: seq<Packet>)
    requires |mb| == SLOTS && slot < SLOTS && pkts != [] && mb[slot] == EMPTY
    ensures var r := Place(mb, slot, pkts);
            && r.count <= FreeCount(mb, slot)
            && FreedEntries(mb, r.mailbox, slot) == pkts[..r.count] + Repeat(EMPTY, FreeCount(mb, slot) - r.count)
    decreases SLOTS - slot, 0
  {
    hide Place, FreedEntries, FreeCount;
    var mb', rest := mb[slot := pkts[0]], pkts[1..];
    var q := Place(mb', slot + 1, rest);
    PlaceFirst(mb, slot, pkts);
    PlaceFillsEmptySlots(mb', slot + 1, rest);
    PlaceFrame(mb', slot + 1, rest);
    FreedEntriesFrame(mb, mb', q.mailbox, slot + 1);
    FreedEmpty(mb, q.mailbox, slot);
    assert q.mailbox[slot] == pkts[0];
    assert pkts[..q.count + 1] == [pkts[0]] + rest[..q.count];
  }

  lemma FreedEmpty(before: seq<Packet>, after: seq<Packet>, slot: nat)
    requires |before| == |after| == SLOTS && slot < SLOTS && before[slot] == EMPTY
    ensures FreedEntries(before, after, slot) == [after[slot]] + FreedEntries(before, after, slot + 1)
    ensures FreeCount(before, slot) == FreeCount(before, slot + 1) + 1
  {
  }

  // ---- Invariant ----

  /** The unbounded count that a 32-bit cursor stands for still selects the same ring index. */
  lemma CursorIndex(n: nat)
    ensures Wrap32(n) % CAPACITY == n % CAPACITY
    ensures Wrap32(Wrap32(n) + 1) == Wrap32(n + 1)
  {
    assert n == TWO32 * (n / TWO32) + n % TWO32;
  }

  /** 32-bit cursor subtraction gives the true distance while it is small. */
  lemma CursorDistance(a: nat, b: nat)
    requires b <= a <= b + CAPACITY
    ensures Wrap32(Wrap32(a) - Wrap32(b)) == a - b
    ensures Wrap32(a) == Wrap32(b) <==> a == b
  {
    assert a == TWO32 * (a / TWO32) + a % TWO32;
    assert b == TWO32 * (b / TWO32) + b % TWO32;
  }

  lemma DistinctIndices(a: nat, b: nat)
    requires b < a < b + CAPACITY
    ensures a % CAPACITY != b % CAPACITY
  {
  }

  /** The ring holds every accepted packet that is not yet released. */
  ghost predicate RingOk(ring: seq<Packet>, accepted: seq<Packet>, released: nat) {
    && |ring| == CAPACITY
    && released <= |accepted| <= released + CAPACITY
    && (forall k :: released <= k < |accepted| ==> ring[k % CAPACITY] == accepted[k])
  }

  ghost predicate ProducerOk(p: Producer, ring: seq<Packet>, head: Word, released: nat)
    requires |ring| == CAPACITY
  {
    && head == Wrap32(|p.accepted|)
    && match p.pc
       case Idle => true
       case LoadedHead(_, h) => h == head
       case LoadedTail(_, h, tail, seen) =>
         h == head && tail == Wrap32(seen) && seen <= released && seen <= |p.accepted| <= seen + CAPACITY
       case Writing(msg, h, done) =>
         && h == head && done <= 4 && |p.accepted| < released + CAPACITY
         && AgreeTo(ring[head % CAPACITY], msg, done)
  }

  ghost predicate ConsumerOk(c: Consumer, tail: Word, accepted: seq<Packet>) {
    && tail == Wrap32(c.released)
    && c.released <= |c.drained| <= |accepted|
    && c.drained == accepted[..|c.drained|]
    && |c.mailbox| == SLOTS && |c.before| == SLOTS
    && match c.pc
       case Waiting => c.released == |c.drained|
       case GotTail(t) => t == tail && c.released == |c.drained| == c.base && c.mailbox == c.before
       case Scanning(t, head, slot, limit) =>
         && DrainProgress(c, t, head, slot, limit, |accepted|)
         && Resumes(c.before, accepted[c.base..limit], c.mailbox, slot, |c.drained| - c.base)
       case Copying(t, head, slot, done, limit) =>
         && DrainProgress(c, t, head, slot, limit, |accepted|)
         && slot < SLOTS && |c.drained| < limit
         && AgreeTo(c.mailbox[slot], accepted[|c.drained|], done)
         && Resumes(c.before, accepted[c.base..limit], c.mailbox[slot := EMPTY], slot, |c.drained| - c.base)
  }

  ghost predicate DrainProgress(c: Consumer, tail: Word, head: Word, slot: nat, limit: nat, accepted: nat) {
    && c.base == c.released <= |c.drained| <= limit <= accepted
    && tail == Wrap32(|c.drained|) && head == Wrap32(limit)
    && limit <= c.released + CAPACITY
    && slot <= SLOTS
  }

  /** Placing what is left, from here, completes the placement of all that was pending. */
  ghost predicate Resumes(before: seq<Packet>, pending: seq<Packet>, mb: seq<Packet>, slot: nat, placed: nat)
    requires |before| == |mb| == SLOTS && placed <= |pending|
  {
    var all := Place(before, 0, pending);
    var rest := Place(mb, slot, pending[placed..]);
    all.mailbox == rest.mailbox && all.count == rest.count + placed
  }

  ghost predicate Inv(s: State) {
    && Shape(s)
    && RingOk(s.ring, s.p.accepted, s.c.released)
    && ProducerOk(s.p, s.ring, s.head, s.c.released)
    && ConsumerOk(s.c, s.tail, s.p.accepted)
  }

  // ---- The producer's steps keep the invariant ----

  /** A byte stored at index |accepted| cannot touch a packet the consumer may still read. */
  lemma WriteKeepsRing(ring: seq<Packet>, accepted: seq<Packet>, released: nat, pkt: Packet)
    requires RingOk(ring, accepted, released) && |accepted| < released + CAPACITY
    ensures RingOk(ring[Wrap32(|accepted|) % CAPACITY := pkt], accepted, released)
  {
    CursorIndex(|accepted|);
    forall k | released <= k < |accepted|
      ensures k % CAPACITY != |accepted| % CAPACITY
    {
      DistinctIndices(|accepted|, k);
    }
  }

  lemma PublishKeepsRing(ring: seq<Packet>, accepted: seq<Packet>, released: nat)
    requires RingOk(ring, accepted, released) && |accepted| < released + CAPACITY
    ensures RingOk(ring, accepted + [ring[Wrap32(|accepted|) % CAPACITY]], released)
  {
    CursorIndex(|accepted|);
  }

  /** Newly accepted packets do not disturb a drain in progress: it stops at the head it loaded. */
  lemma PublishKeepsConsumer(c: Consumer, tail: Word, accepted: seq<Packet>, pkt: Packet)
    requires ConsumerOk(c, tail, accepted)
    ensures ConsumerOk(c, tail, accepted + [pkt])
  {
    hide Resumes, Place;
    var more := accepted + [pkt];
    assert more[..|c.drained|] == accepted[..|c.drained|];
    if c.pc.Scanning? || c.pc.Copying? {
      assert more[c.base..c.pc.limit] == accepted[c.base..c.pc.limit];
    }
  }

  lemma StoreKeepsInv(s: State)
    requires Inv(s) && s.p.pc.Writing? && s.p.pc.done < 4
    ensures Inv(ProduceStep(s))
  {
    hide Resumes, Place;
    var msg, done := s.p.pc.msg, s.p.pc.done;
    WriteKeepsRing(s.ring, s.p.accepted, s.c.released, CopyByte(s.ring[s.head % CAPACITY], msg, done));
  }

  lemma PublishKeepsInv(s: State)
    requires Inv(s) && s.p.pc.Writing? && s.p.pc.done == 4
    ensures Inv(ProduceStep(s))
  {
    hide Resumes, Place;
    CursorIndex(|s.p.accepted|);
    PublishKeepsRing(s.ring, s.p.accepted, s.c.released);
    PublishKeepsConsumer(s.c, s.tail, s.p.accepted, s.p.pc.msg);
  }

  /** The full test may use a stale tail; a stale tail only overstates how full the ring is. */
  lemma FullTest(p: Producer, ring: seq<Packet>, head: Word, released: nat)
    requires |ring| == CAPACITY && p.pc.LoadedTail? && ProducerOk(p, ring, head, released)
    ensures Wrap32(p.pc.head - p.pc.tail) == |p.accepted| - p.pc.seen
    ensures Wrap32(p.pc.head - p.pc.tail) < CAPACITY ==> |p.accepted| < released + CAPACITY
  {
    CursorDistance(|p.accepted|, p.pc.seen);
  }

  lemma ProduceKeepsInv(s: State)
    requires Inv(s)
    ensures Inv(ProduceStep(s))
  {
    hide Resumes, Place;
    match s.p.pc
    case Idle =>
    case LoadedHead(_, _) =>
    case LoadedTail(_, _, _, _) => FullTest(s.p, s.ring, s.head, s.c.released);
    case Writing(_, _, done) =>
      if done < 4 {
        StoreKeepsInv(s);
      } else {
        PublishKeepsInv(s);
      }
  }

  // ---- The consumer's steps keep the invariant ----

  lemma ScanKeepsConsumer(s: State)
    requires Inv(s) && s.c.pc.Scanning?
    ensures var t := ConsumeStep(s); ConsumerOk(t.c, t.tail, t.p.accepted)
  {
    hide Resumes, Place;
    var t := ConsumeStep(s);
    var slot, limit := s.c.pc.slot, s.c.pc.limit;
    CursorDistance(limit, |s.c.drained|);
    if t.c.pc.Copying? {
      StartCopy(s.c.before, s.p.accepted[s.c.base..limit], s.c.mailbox, slot, |s.c.drained| - s.c.base);
    } else if t.c.pc.Scanning? {
      SkipOne(s.c.before, s.p.accepted[s.c.base..limit], s.c.mailbox, slot, |s.c.drained| - s.c.base);
    }
  }

  lemma SkipOne(before: seq<Packet>, pending: seq<Packet>, mb: seq<Packet>, slot: nat, placed: nat)
    requires |before| == |mb| == SLOTS && slot < SLOTS && placed < |pending| && mb[slot] != EMPTY
    requires Resumes(before, pending, mb, slot, placed)
    ensures Resumes(before, pending, mb, slot + 1, placed)
  {
  }

  /** Filling one slot with the next pending packet keeps the placement resumable. */
  lemma PlaceOne(before: seq<Packet>, pending: seq<Packet>, mb: seq<Packet>, slot: nat, placed: nat)
    requires |before| == |mb| == SLOTS && slot < SLOTS && placed < |pending| && mb[slot] == pending[placed]
    requires Resumes(before, pending, mb[slot := EMPTY], slot, placed)
    ensures Resumes(before, pending, mb, slot + 1, placed + 1)
  {
    var rest := pending[placed..];
    assert rest[0] == pending[placed] && rest[1..] == pending[placed + 1..];
    assert mb[slot := EMPTY][slot := rest[0]] == mb;
  }

  lemma StartCopy(before: seq<Packet>, pending: seq<Packet>, mb: seq<Packet>, slot: nat, placed: nat)
    requires |before| == |mb| == SLOTS && slot < SLOTS && placed <= |pending| && mb[slot] == EMPTY
    requires Resumes(before, pending, mb, slot, placed)
    ensures Resumes(before, pending, mb[slot := EMPTY], slot, placed)
  {
    assert mb[slot := EMPTY] == mb;
  }

  /** A byte the consumer copies comes from the next undrained packet. */
  lemma CopyKeepsConsumer(s: State)
    requires Inv(s) && s.c.pc.Copying? && s.c.pc.done < 4
    ensures var t := ConsumeStep(s); ConsumerOk(t.c, t.tail, t.p.accepted)
  {
    hide Resumes, Place;
    var slot := s.c.pc.slot;
    CursorIndex(|s.c.drained|);
    assert s.ring[s.c.pc.tail % CAPACITY] == s.p.accepted[|s.c.drained|];
    assert ConsumeStep(s).c.mailbox[slot := EMPTY] == s.c.mailbox[slot := EMPTY];
  }

  /** The step that ends a copy: the slot now holds the next accepted packet, whole and unchanged. */
  lemma EndOfCopyKeepsConsumer(s: State)
    requires Inv(s) && s.c.pc.Copying? && s.c.pc.done == 4
    ensures var t := ConsumeStep(s); ConsumerOk(t.c, t.tail, t.p.accepted)
  {
    hide Resumes, Place;
    var n, accepted := |s.c.drained|, s.p.accepted;
    CursorIndex(n);
    assert s.c.mailbox[s.c.pc.slot] == accepted[n];
    assert accepted[..n + 1] == accepted[..n] + [accepted[n]];
    PlaceOne(s.c.before, accepted[s.c.base..s.c.pc.limit], s.c.mailbox, s.c.pc.slot, n - s.c.base);
  }

  lemma ConsumeKeepsInv(s: State)
    requires Inv(s)
    ensures Inv(ConsumeStep(s))
  {
    hide Resumes, Place;
    match s.c.pc
    case Waiting =>
    case GotTail(_) => StartKeepsConsumer(s);
    case Scanning(_, _, _, _) => ScanKeepsConsumer(s);
    case Copying(_, _, _, done, _) =>
      if done < 4 {
        CopyKeepsConsumer(s);
      } else {
        EndOfCopyKeepsConsumer(s);
      }
  }

  lemma StartKeepsConsumer(s: State)
    requires Inv(s) && s.c.pc.GotTail?
    ensures var t := ConsumeStep(s); ConsumerOk(t.c, t.tail, t.p.accepted)
  {
    hide Place;
    var pending := s.p.accepted[s.c.base..];
    assert pending[0..] == pending;
  }

  lemma StepKeepsInv(s: State, step: Step)
    requires Inv(s)
    ensures Inv(Next(s, step))
  {
    match step
    case Send(_) =>
    case Produce => ProduceKeepsInv(s);
    case Drain(_) =>
    case Consume => ConsumeKeepsInv(s);
  }

  lemma InitInv()
    ensures Inv(Init())
  {
  }

  lemma {:induction false} RunKeepsInv(s: State, steps: seq<Step>)
    requires Inv(s)
    ensures Inv(Run(s, steps))
    decreases |steps|
  {
    if steps != [] {
      StepKeepsInv(s, steps[0]);
      RunKeepsInv(Next(s, steps[0]), steps[1..]);
    }
  }

  // ---- Main results, over every interleaving ----

  /** However the two threads interleave, and however often the 32-bit cursors wrap,
      what has reached the mailbox is a prefix of what was accepted: in order, whole,
      nothing duplicated; and every accepted packet not yet released is intact in the ring. */
  lemma DrainedIsPrefixOfAccepted(steps: seq<Step>)
    ensures var s := Run(Init(), steps);
            && s.c.drained <= s.p.accepted
            && s.c.released <= |s.c.drained|
            && |s.p.accepted| <= s.c.released + CAPACITY
            && forall k :: s.c.released <= k < |s.p.accepted| ==> s.ring[k % CAPACITY] == s.p.accepted[k]
  {
    RunKeepsInv(Init(), steps);
  }

  /** The full test refuses a packet exactly when CAPACITY accepted packets were not
      yet released at the moment tail was loaded; head and tail may have wrapped. */
  lemma RefusedIffFull(steps: seq<Step>)
    requires Run(Init(), steps).p.pc.LoadedTail?
    ensures var s := Run(Init(), steps);
            ProduceStep(s).p.refused == s.p.refused + 1 <==> |s.p.accepted| - s.p.pc.seen == CAPACITY
  {
    hide Run, Place, Wrap32, RingOk, ConsumerOk;
    InitInv();
    RunKeepsInv(Init(), steps);
    var s := Run(Init(), steps);
    FullTest(s.p, s.ring, s.head, s.c.released);
  }

  /** When a drain publishes tail, the mailbox is exactly the reference placement of the
      packets that were pending when it loaded head, and tail has moved by the number placed. */
  lemma DrainIsPlacement(steps: seq<Step>)
    requires var s := Run(Init(), steps);
             s.c.pc.Scanning? && ConsumeStep(s).c.pc.Waiting?
    ensures var s := Run(Init(), steps);
            && s.c.base <= s.c.pc.limit <= |s.p.accepted|
            && var r := Place(s.c.before, 0, s.p.accepted[s.c.base..s.c.pc.limit]);
            && s.c.mailbox == r.mailbox
            && |s.c.drained| == s.c.base + r.count
            && ConsumeStep(s).tail == Wrap32(s.c.base + r.count)
  {
    hide Run, Place, Inv, Wrap32;
    InitInv();
    RunKeepsInv(Init(), steps);
    FinishedDrain(Run(Init(), steps));
  }

  lemma FinishedDrain(s: State)
    requires Inv(s) && s.c.pc.Scanning? && (s.c.pc.tail == s.c.pc.head || s.c.pc.slot >= SLOTS)
    ensures s.c.base <= s.c.pc.limit <= |s.p.accepted|
    ensures var r := Place(s.c.before, 0, s.p.accepted[s.c.base..s.c.pc.limit]);
            s.c.mailbox == r.mailbox && |s.c.drained| == s.c.base + r.count
    ensures s.c.pc.tail == Wrap32(|s.c.drained|)
  {
    hide Resumes, Place, Wrap32;
    CursorDistance(s.c.pc.limit, |s.c.drained|);
    PlacementEnds(s.c.before, s.p.accepted[s.c.base..s.c.pc.limit], s.c.mailbox, s.c.pc.slot, |s.c.drained| - s.c.base);
  }

  lemma PlacementEnds(before: seq<Packet>, pending: seq<Packet>, mb: seq<Packet>, slot: nat, placed: nat)
    requires |before| == |mb| == SLOTS && placed <= |pending| && (placed == |pending| || slot >= SLOTS)
    requires Resumes(before, pending, mb, slot, placed)
    ensures var all := Place(before, 0, pending); all.mailbox == mb && all.count == placed
  {
  }

  // ---- Progress ----

  /** Upper bound on the consumer steps left in the current drain. */
  function DrainWork(pc: ConsumerPc): nat {
    match pc
    case Waiting => 0
    case GotTail(_) => 6 * SLOTS + 2
    case Scanning(_, _, slot, _) => if slot <= SLOTS then 6 * (SLOTS - slot) + 1 else 1
    case Copying(_, _, slot, done, _) =>
      if slot < SLOTS && done <= 4 then 6 * (SLOTS - slot) - done else 1
  }

  lemma ConsumeReducesWork(s: State)
    requires Shape(s) && !s.c.pc.Waiting?
    ensures DrainWork(ConsumeStep(s).c.pc) < DrainWork(s.c.pc)
  {
  }

  /** Left to run, a drain always ends: DrainWork consumer steps are enough, so at most 122. */
  lemma {:induction false} DrainTerminates(s: State, n: nat)
    requires Shape(s) && n >= DrainWork(s.c.pc)
    ensures Run(s, Repeat(Consume, n)).c.pc.Waiting?
    decreases n
  {
    if n > 0 {
      if !s.c.pc.Waiting? {
        ConsumeReducesWork(s);
      }
      var steps := Repeat(Consume, n);
      assert steps[0] == Consume && steps[1..] == Repeat(Consume, n - 1);
      DrainTerminates(ConsumeStep(s), n - 1);
    }
  }

  // ---- What is sent and what comes of it ----

  /** The messages of the producer's calls, in order: those that arrive while it is idle. */
  function Calls(s: State, steps: seq<Step>): seq<Packet>
    requires Shape(s)
    decreases |steps|
  {
    if steps == [] then []
    else
      (if steps[0].Send? && s.p.pc.Idle? then [steps[0].msg] else []) + Calls(Next(s, steps[0]), steps[1..])
  }

  /** Whether each finished call was accepted: it was unless the drop counter moved. */
  function Results(s: State, steps: seq<Step>): seq<bool>
    requires Shape(s)
    decreases |steps|
  {
    if steps == [] then []
    else
      var t := Next(s, steps[0]);
      (if !s.p.pc.Idle? && t.p.pc.Idle? then [t.p.refused == s.p.refused] else []) + Results(t, steps[1..])
  }

  /** The messages whose calls were accepted. */
  function Kept(calls: seq<Packet>, results: seq<bool>): seq<Packet> {
    if calls == [] || results == [] then []
    else (if results[0] then [calls[0]] else []) + Kept(calls[1..], results[1..])
  }

  /** How many calls were refused. */
  function Dropped(results: seq<bool>): nat {
    if results == [] then 0 else (if results[0] then 0 else 1) + Dropped(results[1..])
  }

  /** The call in progress. */
  function InFlight(pc: ProducerPc): seq<Packet> {
    if pc.Idle? then [] else [pc.msg]
  }

  /** One step moves one call from in flight to finished, or takes a new one in, or neither. */
  lemma StepHandlesCalls(s: State, step: Step)
    requires Shape(s)
    ensures var t := Next(s, step);
            var started := if step.Send? && s.p.pc.Idle? then [step.msg] else [];
            var ended := !s.p.pc.Idle? && t.p.pc.Idle?;
            && InFlight(s.p.pc) + started == (if ended then InFlight(s.p.pc) else InFlight(t.p.pc))
            && (ended ==> t.p.accepted == s.p.accepted + if t.p.refused == s.p.refused then InFlight(s.p.pc) else [])
            && (ended && t.p.refused != s.p.refused ==> t.p.refused == s.p.refused + 1)
            && (!ended ==> t.p.accepted == s.p.accepted && t.p.refused == s.p.refused)
  {
  }

  lemma KeptMore(call: Packet, calls: seq<Packet>, result: bool, results: seq<bool>)
    ensures Kept([call] + calls, [result] + results) == (if result then [call] else []) + Kept(calls, results)
    ensures Dropped([result] + results) == (if result then 0 else 1) + Dropped(results)
  {
    assert ([call] + calls)[1..] == calls && ([result] + results)[1..] == results;
  }

  lemma KeptNone(calls: seq<Packet>)
    ensures Kept(calls, []) == []
  {
  }

  lemma {:induction false} CallsHandled(s: State, steps: seq<Step>)
    requires Shape(s)
    ensures var t := Run(s, steps);
            var calls, results := InFlight(s.p.pc) + Calls(s, steps), Results(s, steps);
            && |results| <= |calls|
            && InFlight(t.p.pc) == calls[|results|..]
            && t.p.accepted == s.p.accepted + Kept(calls, results)
            && t.p.refused == s.p.refused + Dropped(results)
    decreases |steps|
  {
    hide Next, Kept, Dropped, Calls, Results, Run, Shape;
    if steps == [] {
      NothingHappens(s);
      KeptNone(InFlight(s.p.pc));
      NoneDropped();
      assert s.p.accepted + [] == s.p.accepted && InFlight(s.p.pc) + [] == InFlight(s.p.pc);
    } else {
      var t := Next(s, steps[0]);
      StepHandlesCalls(s, steps[0]);
      FirstStep(s, steps);
      CallsHandled(t, steps[1..]);
      var calls, results := InFlight(t.p.pc) + Calls(t, steps[1..]), Results(t, steps[1..]);
      if !s.p.pc.Idle? && t.p.pc.Idle? {
        OneCallEnds(s.p.pc.msg, calls, t.p.refused == s.p.refused, results, s.p.accepted);
        assert InFlight(s.p.pc) + Calls(s, steps) == [s.p.pc.msg] + calls;
      } else {
        assert InFlight(s.p.pc) + Calls(s, steps) == calls;
        assert Results(s, steps) == results;
      }
    }
  }

  lemma NothingHappens(s: State)
    requires Shape(s)
    ensures Calls(s, []) == [] && Results(s, []) == [] && Run(s, []) == s
  {
    hide Shape;
  }

  lemma FirstStep(s: State, steps: seq<Step>)
    requires Shape(s) && steps != []
    ensures var t, step := Next(s, steps[0]), steps[0];
            && Run(s, steps) == Run(t, steps[1..])
            && Calls(s, steps) == (if step.Send? && s.p.pc.Idle? then [step.msg] else []) + Calls(t, steps[1..])
            && Results(s, steps) ==
               (if !s.p.pc.Idle? && t.p.pc.Idle? then [t.p.refused == s.p.refused] else []) + Results(t, steps[1..])
  {
    hide Next, Shape;
  }

  /** The bookkeeping of a call that ends: its message leaves the front of the calls. */
  lemma OneCallEnds(msg: Packet, calls: seq<Packet>, kept: bool, results: seq<bool>, accepted: seq<Packet>)
    requires |results| <= |calls|
    ensures ([msg] + calls)[|[kept] + results|..] == calls[|results|..]
    ensures accepted + Kept([msg] + calls, [kept] + results) ==
            accepted + (if kept then [msg] else []) + Kept(calls, results)
    ensures Dropped([kept] + results) == (if kept then 0 else 1) + Dropped(results)
  {
    hide Kept, Dropped;
    KeptMore(msg, calls, kept, results);
  }

  lemma NoneDropped()
    ensures Dropped([]) == 0
  {
  }

  lemma {:induction false} ResultsCounted(calls: seq<Packet>, results: seq<bool>)
    requires |results| <= |calls|
    ensures |Kept(calls, results)| + Dropped(results) == |results|
    decreases |results|
  {
    if results != [] {
      ResultsCounted(calls[1..], results[1..]);
    }
  }

  /** What is accepted is what was sent: over every interleaving, the accepted packets are, in
      order, the messages of the finished calls that were not refused, byte for byte, and every
      finished call was either accepted or counted as refused. At most one call is in progress. */
  lemma AcceptedIsWhatWasSent(steps: seq<Step>)
    ensures var s := Run(Init(), steps);
            var calls, results := Calls(Init(), steps), Results(Init(), steps);
            && s.p.accepted == Kept(calls, results)
            && |s.p.accepted| + s.p.refused == |results|
            && |calls| == |results| + if s.p.pc.Idle? then 0 else 1
  {
    hide Kept, Calls, Results, Run, Dropped;
    var calls, results := Calls(Init(), steps), Results(Init(), steps);
    CallsHandled(Init(), steps);
    assert [] + calls == calls && [] + Kept(calls, results) == Kept(calls, results);
    ResultsCounted(calls, results);
  }

  lemma RunAppend(s: State, a: seq<Step>, b: seq<Step>)
    requires Shape(s)
    ensures Run(s, a + b) == Run(Run(s, a), b)
    decreases |a|
  {
    hide Next, Shape;
    if a == [] {
      assert a + b == b;
    } else {
      assert (a + b)[1..] == a[1..] + b;
      RunAppend(Next(s, a[0]), a[1..], b);
    }
  }

  lemma ProduceFirst(s: State, n: nat)
    requires Shape(s)
    ensures Run(s, Repeat(Produce, n + 1)) == Run(ProduceStep(s), Repeat(Produce, n))
    ensures Run(s, Repeat(Produce, 0)) == s
  {
    hide ProduceStep, Shape;
    var all := Repeat(Produce, n + 1);
    assert all[0] == Produce && all[1..] == Repeat(Produce, n);
  }

  lemma FourBytesCopied(p: Packet, msg: Packet)
    ensures CopyByte(CopyByte(CopyByte(CopyByte(p, msg, 0), msg, 1), msg, 2), msg, 3) == msg
  {
  }

  /** The four byte stores and the store of head that follow the full test. */
  lemma WriteAndPublish(s: State)
    requires Shape(s) && s.p.pc.Writing? && s.p.pc.done == 0
    ensures var msg, i := s.p.pc.msg, s.p.pc.head % CAPACITY;
            Run(s, Repeat(Produce, 5)) ==
            s.(ring := s.ring[i := msg], head := Wrap32(s.p.pc.head + 1),
               p := s.p.(pc := Idle, accepted := s.p.accepted + [msg]))
  {
    hide Run, CopyByte, Wrap32;
    var msg, i := s.p.pc.msg, s.p.pc.head % CAPACITY;
    FourBytesCopied(s.ring[i], msg);
    var s1 := ProduceStep(s);
    var s2 := ProduceStep(s1);
    var s3 := ProduceStep(s2);
    var s4 := ProduceStep(s3);
    ProduceFirst(s, 4);
    ProduceFirst(s1, 3);
    ProduceFirst(s2, 2);
    ProduceFirst(s3, 1);
    ProduceFirst(s4, 0);
    ProduceFirst(ProduceStep(s4), 0);
    assert s4.ring == s.ring[i := msg];
  }

  /** A call that finds the producer idle and room in the ring, left alone, ends after seven steps
      with its message accepted and in the ring. */
  lemma SendWithRoom(steps: seq<Step>, msg: Packet)
    requires var s := Run(Init(), steps); s.p.pc.Idle? && |s.p.accepted| - s.c.released < CAPACITY
    ensures var s, t := Run(Init(), steps), Run(Init(), steps + ([Send(msg)] + Repeat(Produce, 7)));
            && t.p.pc.Idle? && t.p.accepted == s.p.accepted + [msg] && t.p.refused == s.p.refused
            && t.c == s.c && t.ring[|s.p.accepted| % CAPACITY] == msg
  {
    RunKeepsInv(Init(), steps);
    RunAppend(Init(), steps, [Send(msg)] + Repeat(Produce, 7));
    CallWithRoom(Run(Init(), steps), msg);
  }

  lemma CallWithRoom(s: State, msg: Packet)
    requires Inv(s) && s.p.pc.Idle? && |s.p.accepted| - s.c.released < CAPACITY
    ensures var t := Run(s, [Send(msg)] + Repeat(Produce, 7));
            && t.p.pc.Idle? && t.p.accepted == s.p.accepted + [msg] && t.p.refused == s.p.refused
            && t.c == s.c && t.ring[|s.p.accepted| % CAPACITY] == msg
  {
    hide Run, Wrap32, Inv, ProduceStep;
    InvCursors(s);
    FullTestPasses(s, msg);
    WriteAndPublish(s.(p := s.p.(pc := Writing(msg, s.head, 0))));
    CursorIndex(|s.p.accepted|);
  }

  /** Loading the cursors and passing the full test takes two steps and changes no memory. */
  lemma FullTestPasses(s: State, msg: Packet)
    requires Shape(s) && s.p.pc.Idle? && Wrap32(s.head - s.tail) < CAPACITY
    ensures Run(s, [Send(msg)] + Repeat(Produce, 7)) ==
            Run(s.(p := s.p.(pc := Writing(msg, s.head, 0))), Repeat(Produce, 5))
  {
    hide Run, Wrap32;
    SendFirst(s, msg, Repeat(Produce, 7));
    var s1 := Next(s, Send(msg));
    ProduceFirst(s1, 6);
    ProduceFirst(ProduceStep(s1), 5);
  }

  lemma InvCursors(s: State)
    requires Inv(s)
    ensures Shape(s) && s.head == Wrap32(|s.p.accepted|) && s.tail == Wrap32(s.c.released)
    ensures s.c.released <= |s.c.drained| <= |s.p.accepted| <= s.c.released + CAPACITY
    ensures Wrap32(s.head - s.tail) == |s.p.accepted| - s.c.released
    ensures s.head == s.tail <==> |s.p.accepted| == s.c.released
    ensures s.c.pc.Waiting? ==> s.c.released == |s.c.drained|
  {
    hide Wrap32;
    CursorDistance(|s.p.accepted|, s.c.released);
  }

  lemma SendFirst(s: State, msg: Packet, rest: seq<Step>)
    requires Shape(s)
    ensures Run(s, [Send(msg)] + rest) == Run(Next(s, Send(msg)), rest)
  {
    hide Next, Shape;
    assert ([Send(msg)] + rest)[1..] == rest;
  }

  // ---- Progress of a whole drain ----

  /** Consumer steps change none of what a drain has taken for its own. */
  lemma ConsumeKeepsJob(s: State)
    requires Shape(s) && (s.c.pc.Scanning? || s.c.pc.Copying?)
    ensures var t := ConsumeStep(s);
            && t.c.base == s.c.base && t.c.before == s.c.before
            && (t.c.pc.Waiting? || ((t.c.pc.Scanning? || t.c.pc.Copying?) && t.c.pc.limit == s.c.pc.limit))
            && (t.c.pc.Waiting? ==> t.c.mailbox == s.c.mailbox && t.c.drained == s.c.drained)
  {
  }

  lemma ConsumeFirst(s: State, n: nat)
    requires Shape(s)
    ensures Run(s, Repeat(Consume, n + 1)) == Run(ConsumeStep(s), Repeat(Consume, n))
    ensures Run(s, Repeat(Consume, 0)) == s
  {
    hide ConsumeStep, Shape;
    var all := Repeat(Consume, n + 1);
    assert all[0] == Consume && all[1..] == Repeat(Consume, n);
  }

  lemma {:induction false} WaitingStays(s: State, n: nat)
    requires Shape(s) && s.c.pc.Waiting?
    ensures Run(s, Repeat(Consume, n)) == s
  {
    ConsumeFirst(s, 0);
    if n > 0 {
      ConsumeFirst(s, n - 1);
      WaitingStays(s, n - 1);
    }
  }

  /** A drain that has loaded both cursors, left to run, places all that was pending. */
  lemma {:induction false} DrainFinishes(s: State, n: nat)
    requires Inv(s) && (s.c.pc.Scanning? || s.c.pc.Copying?) && n >= DrainWork(s.c.pc)
    ensures var t := Run(s, Repeat(Consume, n));
            && t.c.pc.Waiting? && s.c.base <= s.c.pc.limit <= |s.p.accepted|
            && var r := Place(s.c.before, 0, s.p.accepted[s.c.base..s.c.pc.limit]);
            && t.c.mailbox == r.mailbox && |t.c.drained| == s.c.base + r.count
    decreases n
  {
    hide Run, Place, Inv, ConsumeStep, DrainWork;
    InvCursors(s);
    ConsumeReducesWork(s);
    ConsumeFirst(s, n - 1);
    ConsumeKeepsInv(s);
    ConsumeKeepsJob(s);
    var t := ConsumeStep(s);
    if t.c.pc.Waiting? {
      DrainEndsHere(s);
      WaitingStays(t, n - 1);
    } else {
      DrainFinishes(t, n - 1);
    }
  }

  lemma DrainEndsHere(s: State)
    requires Inv(s) && (s.c.pc.Scanning? || s.c.pc.Copying?) && ConsumeStep(s).c.pc.Waiting?
    ensures s.c.base <= s.c.pc.limit <= |s.p.accepted|
    ensures var r := Place(s.c.before, 0, s.p.accepted[s.c.base..s.c.pc.limit]);
            s.c.mailbox == r.mailbox && |s.c.drained| == s.c.base + r.count
  {
    hide Inv, Place;
    FinishedDrain(s);
  }

  /** A drain left to run after any history moves as many packets as are pending, or as there are
      empty slots, whichever is less, and releases their places in the ring. */
  lemma DrainMovesAllThatFit(steps: seq<Step>, mailbox: seq<Packet>, n: nat)
    requires |mailbox| == SLOTS && n >= 6 * SLOTS + 2 && Run(Init(), steps).c.pc.Waiting?
    ensures var s := Run(Init(), steps); |s.c.drained| <= |s.p.accepted|
    ensures var s, t := Run(Init(), steps), Run(Init(), steps + ([Drain(mailbox)] + Repeat(Consume, n)));
            var pending := s.p.accepted[|s.c.drained|..];
            && t.c.pc.Waiting? && t.c.mailbox == Place(mailbox, 0, pending).mailbox
            && |t.c.drained| == |s.c.drained| + Min(|pending|, FreeCount(mailbox, 0))
            && t.c.released == |t.c.drained|
  {
    RunKeepsInv(Init(), steps);
    RunAppend(Init(), steps, [Drain(mailbox)] + Repeat(Consume, n));
    WholeDrain(Run(Init(), steps), mailbox, n);
  }

  lemma WholeDrain(s: State, mailbox: seq<Packet>, n: nat)
    requires Inv(s) && |mailbox| == SLOTS && n >= 6 * SLOTS + 2 && s.c.pc.Waiting?
    ensures |s.c.drained| <= |s.p.accepted|
    ensures var t := Run(s, [Drain(mailbox)] + Repeat(Consume, n));
            var pending := s.p.accepted[|s.c.drained|..];
            && t.c.pc.Waiting? && t.c.mailbox == Place(mailbox, 0, pending).mailbox
            && |t.c.drained| == |s.c.drained| + Min(|pending|, FreeCount(mailbox, 0))
            && t.c.released == |t.c.drained|
  {
    hide Run, Place, FreeCount, Wrap32, Inv, ConsumeStep, DrainWork;
    InvCursors(s);
    DrainFirst(s, mailbox, Repeat(Consume, n));
    var s1 := Next(s, Drain(mailbox));
    StepKeepsInv(s, Drain(mailbox));
    RunKeepsInv(s1, Repeat(Consume, n));
    InvCursors(Run(s1, Repeat(Consume, n)));
    DrainStarts(s1);
    ConsumeKeepsInv(s1);
    ConsumeFirst(s1, n - 1);
    var s2 := ConsumeStep(s1);
    var pending := s.p.accepted[|s.c.drained|..];
    PlaceCount(mailbox, 0, pending);
    if s2.c.pc.Waiting? {
      assert pending == [];
      PlaceNothing(mailbox);
      WaitingStays(s2, n - 1);
    } else {
      assert s2.c.pc.limit == |s.p.accepted|;
      assert s2.p.accepted[s2.c.base..s2.c.pc.limit] == pending;
      DrainFinishes(s2, n - 1);
    }
  }

  /** A drain goes ahead exactly if the two cursors differ, for all that is then accepted. */
  lemma DrainStarts(s: State)
    requires Shape(s) && s.c.pc.GotTail?
    ensures var t := ConsumeStep(s);
            && t.c.mailbox == s.c.mailbox && t.c.before == s.c.before && t.c.drained == s.c.drained
            && t.c.base == s.c.base
            && t.c.pc == (if s.c.pc.tail == s.head then Waiting else Scanning(s.c.pc.tail, s.head, 0, |s.p.accepted|))
            && DrainWork(t.c.pc) <= 6 * SLOTS + 1
  {
  }

  lemma PlaceNothing(mb: seq<Packet>)
    requires |mb| == SLOTS
    ensures Place(mb, 0, []) == Placed(mb, 0)
  {
  }

  lemma DrainFirst(s: State, mailbox: seq<Packet>, rest: seq<Step>)
    requires Shape(s)
    ensures Run(s, [Drain(mailbox)] + rest) == Run(Next(s, Drain(mailbox)), rest)
  {
    hide Next, Shape;
    assert ([Drain(mailbox)] + rest)[1..] == rest;
  }
}
