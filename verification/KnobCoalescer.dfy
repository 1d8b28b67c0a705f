/** Co-run knob coalescing: detents bound for Move firmware are summed per knob and
    re-emitted as one CC at most every fourth frame. */
module KnobCoalescer {
  import opened Machine

  const EVENTS := 32          // MIDI_BUFFER_SIZE / 8
  const KNOBS := 8
  const FIRST_KNOB_CC := 71
  const EMIT_PERIOD := 4
  const CC_MASTER_KNOB := 79

  type Int16 = x: int | -32768 <= x < 32768

  function Wrap16(x: int): Int16 {
    (x + 32768) % 65536 - 32768
  }

  /** One 8-byte MIDI_IN slot: the packet dword and the timestamp dword. */
  datatype Event = Event(b0: Byte, b1: Byte, b2: Byte, b3: Byte, stamp: Word) {
    function Cin(): int { b0 % 16 }
    function Cable(): int { b0 / 16 }
    function Type(): Byte { b1 - b1 % 16 }

    /** The packet dword is zero, which is what both writers test for. */
    predicate Free() { b0 == 0 && b1 == 0 && b2 == 0 && b3 == 0 }
  }

  /** What the filter consults besides the event. `ownedByPeer` stands for corun_event_owner,
      and `blockedElsewhere` for the rules of the modes other than module overtake. */
  datatype Config = Config(
    moduleOvertake: bool,
    moveNative: bool,
    keepsKnobs: bool,
    passthrough: set<Byte>,
    ownedByPeer: (Byte, Byte) -> bool,
    blockedElsewhere: Event -> bool)

  /** The signed step a relative-encoder value stands for. */
  function Detent(d2: Byte): int {
    if 1 <= d2 <= 63 then d2
    else if 65 <= d2 <= 127 then d2 - 128
    else 0
  }

  predicate CededToPeer(cfg: Config, e: Event) {
    cfg.moduleOvertake && e.Cable() == 0 && cfg.moveNative && cfg.ownedByPeer(e.Type(), e.b2)
  }

  predicate Coalesced(cfg: Config, e: Event) {
    && CededToPeer(cfg, e) && !cfg.keepsKnobs
    && e.Type() == 0xB0 && FIRST_KNOB_CC <= e.b2 < FIRST_KNOB_CC + KNOBS
  }

  predicate Filtered(cfg: Config, e: Event) {
    if e.Cable() != 0 then false
    else if !cfg.moduleOvertake then cfg.blockedElsewhere(e)
    else if CededToPeer(cfg, e) then Coalesced(cfg, e)
    else
      && e.b1 >= 0x80
      && !(e.Cin() == 0x0B && e.Type() == 0xB0 && e.b2 == CC_MASTER_KNOB)
      && !((e.Cin() == 0x09 || e.Cin() == 0x08) && (e.Type() == 0x90 || e.Type() == 0x80) && e.b2 == 8)
      && !(e.Cin() == 0x0B && e.Type() == 0xB0 && e.b2 < 128 && e.b2 in cfg.passthrough)
  }

  function Pass(cfg: Config, e: Event): Event {
    if Filtered(cfg, e) then Event(0, 0, 0, 0, e.stamp) else e
  }

  /** What event e withholds from Move on account of knob k. */
  function Detents(cfg: Config, e: Event, k: nat): int {
    if Coalesced(cfg, e) && e.b2 == FIRST_KNOB_CC + k then Detent(e.b3) else 0
  }

  /** The detents of knob k that this frame withholds from Move. */
  function Incoming(cfg: Config, hw: seq<Event>, k: nat): int {
    if hw == [] then 0
    else Incoming(cfg, hw[..|hw| - 1], k) + Detents(cfg, hw[|hw| - 1], k)
  }

  lemma IncomingLast(cfg: Config, hw: seq<Event>, k: nat)
    requires hw != []
    ensures Incoming(cfg, hw, k) == Incoming(cfg, hw[..|hw| - 1], k) + Detents(cfg, hw[|hw| - 1], k)
  {
  }

  lemma CoalescedRange(cfg: Config, e: Event)
    ensures Coalesced(cfg, e) ==> FIRST_KNOB_CC <= e.b2 < FIRST_KNOB_CC + KNOBS
  {
  }

  lemma {:induction false} IncomingBound(cfg: Config, hw: seq<Event>, k: nat)
    ensures -63 * |hw| <= Incoming(cfg, hw, k) <= 63 * |hw|
    decreases |hw|
  {
    if hw != [] {
      IncomingBound(cfg, hw[..|hw| - 1], k);
    }
  }

  /** The part of an accumulator that fits one CC. */
  function Clamp(a: int): int {
    if a > 63 then 63 else if a < -63 then -63 else a
  }

  function Encode(delta: int): Byte
    requires -63 <= delta <= 63
  {
    if delta >= 0 then delta else delta + 128
  }

  function Synthetic(k: nat, delta: int): Event
    requires k < KNOBS && -63 <= delta <= 63
  {
    Event(0x0B, 0xB0, FIRST_KNOB_CC + k, Encode(delta), 0)
  }

  /** The first free slot at or after i, or |sh| if there is none. */
  function FirstFree(sh: seq<Event>, i: nat): (j: nat)
    requires i <= |sh|
    ensures i <= j <= |sh|
    ensures j < |sh| ==> sh[j].Free()
    ensures forall m :: i <= m < j ==> !sh[m].Free()
    decreases |sh| - i
  {
    if i == |sh| || sh[i].Free() then i else FirstFree(sh, i + 1)
  }

  function Inject(sh: seq<Event>, e: Event): (r: seq<Event>)
    ensures |r| == |sh|
  {
    var j := FirstFree(sh, 0);
    if j < |sh| then sh[j := e] else sh
  }

  /** The synthetic event of knob k, if its accumulator a calls for one. */
  function EmitOne(a: Int16, k: nat, sh: seq<Event>): (r: seq<Event>)
    requires k < KNOBS
    ensures |r| == |sh|
  {
    if a == 0 then sh else Inject(sh, Synthetic(k, Clamp(a)))
  }

  /** The synthetic events of knobs k and up, for accumulators acc. */
  function EmitFrom(acc: seq<Int16>, k: nat, sh: seq<Event>): (r: seq<Event>)
    requires |acc| == KNOBS && k <= KNOBS
    ensures |r| == |sh|
    decreases KNOBS - k
  {
    if k == KNOBS then sh else EmitFrom(acc, k + 1, EmitOne(acc[k], k, sh))
  }

  predicate EmitFrame(phase: Word) {
    Wrap32(phase + 1) % EMIT_PERIOD == 0
  }

  /** The accumulator once the frame's detents are folded in. */
  function Folded(cfg: Config, hw: seq<Event>, acc: seq<Int16>): seq<Int16>
    requires |acc| == KNOBS
  {
    seq(KNOBS, k requires 0 <= k < KNOBS => Wrap16(acc[k] + Incoming(cfg, hw, k)))
  }

  function Passed(cfg: Config, hw: seq<Event>): (sh: seq<Event>)
    ensures |sh| == |hw|
  {
    seq(|hw|, i requires 0 <= i < |hw| => Pass(cfg, hw[i]))
  }

  class Coalescer {
    const accum: array<Int16>
    var phase: Word

    ghost predicate Valid()
      reads this
    {
      accum.Length == KNOBS
    }

    constructor ()
      ensures Valid() && fresh(accum) && phase == 0
      ensures accum[..] == Repeat(0, KNOBS)
    {
      accum := new Int16[KNOBS](_ => 0);
      phase := 0;
    }

    /** The filter loop: sh becomes the filtered frame, and the withheld detents are summed. */
    method FilterFrame(cfg: Config, hw: array<Event>, sh: array<Event>) returns (delta: array<Int16>)
      requires hw.Length == sh.Length == EVENTS && hw != sh
      modifies sh
      ensures fresh(delta) && delta.Length == KNOBS
      ensures sh[..] == Passed(cfg, hw[..])
      ensures forall k :: 0 <= k < KNOBS ==> delta[k] == Incoming(cfg, hw[..], k)
    {
      hide Filtered, CededToPeer, Detent, Incoming, Coalesced;
      delta := new Int16[KNOBS](_ => 0);
      forall k | 0 <= k < KNOBS
        ensures Incoming(cfg, hw[..0], k) == 0
      {
        IncomingBound(cfg, hw[..0], k);
      }
      for j := 0 to EVENTS
        invariant forall i :: 0 <= i < j ==> sh[i] == Pass(cfg, hw[i])
        invariant forall k :: 0 <= k < KNOBS ==> delta[k] == Incoming(cfg, hw[..j], k)
      {
        var e := hw[j];
        forall k | 0 <= k < KNOBS
          ensures Incoming(cfg, hw[..j + 1], k) == delta[k] + Detents(cfg, e, k)
        {
          assert hw[..j + 1][..j] == hw[..j];
          IncomingLast(cfg, hw[..j + 1], k);
        }
        CoalescedRange(cfg, e);
        if Coalesced(cfg, e) {
          var k := e.b2 - FIRST_KNOB_CC;
          IncomingBound(cfg, hw[..j + 1], k);
          delta[k] := delta[k] + Detent(e.b3);
        }
        if Filtered(cfg, e) {
          sh[j] := Event(0, 0, 0, 0, e.stamp);
        } else {
          sh[j] := e;
        }
      }
      assert hw[..EVENTS] == hw[..];
    }

    /** Place one synthetic event in the first free slot, if there is one. */
    method InjectInto(sh: array<Event>, e: Event)
      modifies sh
      ensures sh[..] == Inject(old(sh[..]), e)
    {
      for j := 0 to sh.Length
        invariant sh[..] == old(sh[..])
        invariant FirstFree(sh[..], 0) == FirstFree(sh[..], j)
      {
        if sh[j].Free() {
          sh[j] := e;
          return;
        }
      }
    }

    /** One MIDI_IN frame: filter, fold the detents into the accumulators, and on every
        fourth frame emit one clamped CC per non-zero accumulator. The clamped part leaves
        the accumulator whether or not a slot was free for its CC. */
    method Frame(cfg: Config, hw: array<Event>, sh: array<Event>)
      requires Valid() && hw.Length == sh.Length == EVENTS && hw != sh
      modifies this, accum, sh
      ensures phase == Wrap32(old(phase) + 1)
      ensures var acc := Folded(cfg, hw[..], old(accum[..]));
              var passed := Passed(cfg, hw[..]);
              if EmitFrame(old(phase)) then
                && accum[..] == AfterEmit(acc)
                && sh[..] == EmitFrom(acc, 0, passed)
              else
                accum[..] == acc && sh[..] == passed
    {
      hide EmitFrom, AfterEmit, Filtered, Coalesced, Clamp;
      var delta := FilterFrame(cfg, hw, sh);
      FoldIn(delta);
      assert accum[..] == Folded(cfg, hw[..], old(accum[..]));
      phase := Wrap32(phase + 1);
      if phase % EMIT_PERIOD == 0 {
        Emit(sh);
      }
    }

    method FoldIn(delta: array<Int16>)
      requires Valid() && delta.Length == KNOBS && delta != accum
      modifies accum
      ensures forall k :: 0 <= k < KNOBS ==> accum[k] == Wrap16(old(accum[k]) as int + delta[k])
    {
      for k := 0 to KNOBS
        invariant forall i :: 0 <= i < k ==> accum[i] == Wrap16(old(accum[i]) as int + delta[i])
        invariant forall i :: k <= i < KNOBS ==> accum[i] == old(accum[i])
      {
        accum[k] := Wrap16(accum[k] as int + delta[k]);
      }
    }

    method EmitKnob(k: nat, sh: array<Event>)
      requires Valid() && k < KNOBS
      modifies accum, sh
      ensures accum[k] == old(accum[k]) - Clamp(old(accum[k]))
      ensures forall i :: 0 <= i < KNOBS && i != k ==> accum[i] == old(accum[i])
      ensures sh[..] == EmitOne(old(accum[k]), k, old(sh[..]))
    {
      hide Inject;
      if accum[k] != 0 {
        var delta := Clamp(accum[k]);
        accum[k] := accum[k] - delta;
        InjectInto(sh, Synthetic(k, delta));
      }
    }

    method Emit(sh: array<Event>)
      requires Valid()
      modifies accum, sh
      ensures accum[..] == AfterEmit(old(accum[..]))
      ensures sh[..] == EmitFrom(old(accum[..]), 0, old(sh[..]))
    {
      hide EmitOne, Clamp;
      ghost var acc := accum[..];
      for k := 0 to KNOBS
        invariant forall i :: 0 <= i < k ==> accum[i] == acc[i] - Clamp(acc[i])
        invariant forall i :: k <= i < KNOBS ==> accum[i] == acc[i]
        invariant EmitFrom(acc, k, sh[..]) == EmitFrom(acc, 0, old(sh[..]))
      {
        EmitKnob(k, sh);
      }
    }
  }

  function AfterEmit(acc: seq<Int16>): (r: seq<Int16>)
    requires |acc| == KNOBS
    ensures |r| == KNOBS
  {
    seq(KNOBS, k requires 0 <= k < KNOBS => acc[k] - Clamp(acc[k]))
  }

  // ---- What Move can see ----

  /** A motion of knob k as Move reads it: a control change on channel 0 of cable 0, for CC 71 + k,
      without a time stamp. */
  predicate IsMotion(e: Event, k: nat) {
    e.b0 == 0x0B && e.b1 == 0xB0 && e.b2 == 71 + k && e.stamp == 0
  }

  /** How Move reads a relative value: 1 to 63 turn up, 127 down to 65 turn down by as much. */
  lemma DetentValues(n: int)
    requires 1 <= n <= 63
    ensures Detent(n) == n && Detent(128 - n) == -n
    ensures Detent(0) == Detent(64) == Detent(127 + n) == 0
  {
  }

  /** The detents of knob k that a frame shows in slots that the filter had left free. */
  function Shown(passed: seq<Event>, sh: seq<Event>, k: nat): int
    requires |passed| == |sh|
  {
    if sh == [] then 0
    else
      var n := |sh| - 1;
      Shown(passed[..n], sh[..n], k)
      + if passed[n].Free() && IsMotion(sh[n], k) then Detent(sh[n].b3) else 0
  }

  function FreeSlots(sh: seq<Event>): (n: nat)
    ensures n <= |sh|
  {
    if sh == [] then 0 else FreeSlots(sh[..|sh| - 1]) + if sh[|sh| - 1].Free() then 1 else 0
  }

  /** Non-zero accumulators among knobs from..to. */
  function Busy(acc: seq<Int16>, from: nat, to: nat): nat
    requires |acc| == KNOBS && from <= to <= KNOBS
    decreases KNOBS - from
  {
    if from == to then 0 else (if acc[from] == 0 then 0 else 1) + Busy(acc, from + 1, to)
  }

  /** The encoding of a non-zero clamped delta decodes to the same delta. */
  lemma EncodeRoundTrip(delta: int)
    requires -63 <= delta <= 63
    ensures Detent(Encode(delta)) == delta
  {
  }

  /** Filling a free slot changes what is shown by exactly the event put there. */
  lemma {:induction false} ShownAfterFill(passed: seq<Event>, sh: seq<Event>, j: nat, e: Event, k: nat)
    requires |passed| == |sh| && j < |sh| && passed[j].Free() && sh[j].Free() && k < KNOBS
    ensures Shown(passed, sh[j := e], k) ==
            Shown(passed, sh, k) + if IsMotion(e, k) then Detent(e.b3) else 0
    decreases |sh|
  {
    var n := |sh| - 1;
    if j < n {
      assert sh[j := e][..n] == sh[..n][j := e];
      ShownAfterFill(passed[..n], sh[..n], j, e, k);
    } else {
      assert sh[j := e][..n] == sh[..n];
    }
  }

  lemma {:induction false} FreeSlotsAfterFill(sh: seq<Event>, j: nat, e: Event)
    requires j < |sh| && sh[j].Free() && !e.Free()
    ensures FreeSlots(sh[j := e]) == FreeSlots(sh) - 1
    decreases |sh|
  {
    var n := |sh| - 1;
    if j < n {
      assert sh[j := e][..n] == sh[..n][j := e];
      FreeSlotsAfterFill(sh[..n], j, e);
    } else {
      assert sh[j := e][..n] == sh[..n];
    }
  }

  lemma {:induction false} NoFreeSlots(sh: seq<Event>)
    ensures FreeSlots(sh) == 0 <==> forall i :: 0 <= i < |sh| ==> !sh[i].Free()
    decreases |sh|
  {
    if sh != [] {
      NoFreeSlots(sh[..|sh| - 1]);
    }
  }

  lemma {:induction false} ShownNothing(passed: seq<Event>, k: nat)
    requires k < KNOBS
    ensures Shown(passed, passed, k) == 0
    decreases |passed|
  {
    if passed != [] {
      ShownNothing(passed[..|passed| - 1], k);
    }
  }

  /** sh differs from passed only in slots passed left free. */
  ghost predicate Extends(passed: seq<Event>, sh: seq<Event>) {
    |passed| == |sh| && forall i :: 0 <= i < |sh| && sh[i].Free() ==> passed[i].Free()
  }

  lemma InjectEffect(passed: seq<Event>, sh: seq<Event>, j: nat, delta: int, k: nat)
    requires Extends(passed, sh) && j < KNOBS && k < KNOBS && -63 <= delta <= 63
    ensures var r := Inject(sh, Synthetic(j, delta));
            && Extends(passed, r)
            && FreeSlots(r) == (if FreeSlots(sh) > 0 then FreeSlots(sh) - 1 else 0)
            && Shown(passed, r, k) == Shown(passed, sh, k) + if j == k && FreeSlots(sh) > 0 then delta else 0
  {
    NoFreeSlots(sh);
    EncodeRoundTrip(delta);
    var at := FirstFree(sh, 0);
    if at < |sh| {
      FreeSlotsAfterFill(sh, at, Synthetic(j, delta));
      ShownAfterFill(passed, sh, at, Synthetic(j, delta), k);
    }
  }

  /** Emission shows a knob's clamped accumulator exactly when a free slot is left for it
      after the lower-numbered busy knobs, and otherwise shows nothing of it. */
  lemma {:induction false} EmitShows(passed: seq<Event>, acc: seq<Int16>, from: nat, sh: seq<Event>, k: nat)
    requires |acc| == KNOBS && from <= KNOBS && k < KNOBS && Extends(passed, sh)
    ensures Shown(passed, EmitFrom(acc, from, sh), k) ==
            Shown(passed, sh, k) +
              if from <= k && FreeSlots(sh) > Busy(acc, from, k) then Clamp(acc[k]) else 0
    decreases KNOBS - from
  {
    hide Shown, FreeSlots, Inject, Extends;
    if from < KNOBS {
      if acc[from] == 0 {
        EmitShows(passed, acc, from + 1, sh, k);
      } else {
        var sh' := Inject(sh, Synthetic(from, Clamp(acc[from])));
        InjectEffect(passed, sh, from, Clamp(acc[from]), k);
        EmitShows(passed, acc, from + 1, sh', k);
      }
    }
  }

  /** A slot that emission changes was free, and now holds a motion of some knob. */
  ghost predicate OnlyMotionAdded(before: seq<Event>, after: seq<Event>) {
    |before| == |after| && forall i :: 0 <= i < |before| && after[i] != before[i] ==>
      before[i].Free() && exists k :: 0 <= k < KNOBS && IsMotion(after[i], k)
  }

  lemma SyntheticIsMotion(k: nat, delta: int)
    requires k < KNOBS && -63 <= delta <= 63
    ensures IsMotion(Synthetic(k, delta), k) && !Synthetic(k, delta).Free()
  {
  }

  /** Emission puts nothing but knob motion into the frame, and only into free slots. */
  lemma {:induction false} EmitAddsOnlyMotion(acc: seq<Int16>, from: nat, sh: seq<Event>)
    requires |acc| == KNOBS && from <= KNOBS
    ensures OnlyMotionAdded(sh, EmitFrom(acc, from, sh))
    decreases KNOBS - from
  {
    hide Synthetic, Clamp, IsMotion, FirstFree;
    if from < KNOBS {
      var once := EmitOne(acc[from], from, sh);
      var end := EmitFrom(acc, from + 1, once);
      EmitAddsOnlyMotion(acc, from + 1, once);
      if acc[from] != 0 {
        ClampRange(acc[from]);
        SyntheticIsMotion(from, Clamp(acc[from]));
      }
      forall i | 0 <= i < |sh| && end[i] != sh[i]
        ensures sh[i].Free() && exists k :: 0 <= k < KNOBS && IsMotion(end[i], k)
      {
        if once[i] != sh[i] {
          assert once[i] == end[i];
        }
      }
    }
  }

  lemma ClampRange(a: int)
    ensures -63 <= Clamp(a) <= 63
  {
  }

  // ---- Where the room comes from ----

  /** A detent reaches Move by one way only: withheld, its slot is left free; passed on, it is
      not counted. */
  lemma WithheldOrPassed(cfg: Config, e: Event, k: nat)
    requires k < KNOBS
    ensures Coalesced(cfg, e) ==> Pass(cfg, e).Free()
    ensures Pass(cfg, e) == e && !e.Free() ==> Detents(cfg, e, k) == 0
  {
  }

  function Withheld(cfg: Config, hw: seq<Event>): (n: nat)
    ensures n <= |hw|
  {
    if hw == [] then 0 else Withheld(cfg, hw[..|hw| - 1]) + if Coalesced(cfg, hw[|hw| - 1]) then 1 else 0
  }

  lemma {:induction false} WithheldSlotsAreFree(cfg: Config, hw: seq<Event>)
    ensures FreeSlots(Passed(cfg, hw)) >= Withheld(cfg, hw)
    decreases |hw|
  {
    hide Coalesced, Filtered;
    if hw != [] {
      var n := |hw| - 1;
      assert Passed(cfg, hw)[..n] == Passed(cfg, hw[..n]);
      WithheldSlotsAreFree(cfg, hw[..n]);
      WithheldOrPassed(cfg, hw[n], 0);
    }
  }

  lemma {:induction false} BusySplit(acc: seq<Int16>, from: nat, k: nat)
    requires |acc| == KNOBS && from <= k < KNOBS && acc[k] != 0
    ensures Busy(acc, from, KNOBS) > Busy(acc, from, k)
    decreases k - from
  {
    if from < k {
      BusySplit(acc, from + 1, k);
    }
  }

  /** A frame that withholds as many events as there are busy knobs has room for all of them,
      whatever else it carries: the withheld events make their own room. */
  lemma WithheldEventsMakeRoom(cfg: Config, hw: seq<Event>, acc: seq<Int16>, k: nat)
    requires |acc| == KNOBS && k < KNOBS && acc[k] != 0
    requires Withheld(cfg, hw) >= Busy(acc, 0, KNOBS)
    ensures FreeSlots(Passed(cfg, hw)) > Busy(acc, 0, k)
  {
    WithheldSlotsAreFree(cfg, hw);
    BusySplit(acc, 0, k);
  }

  // ---- What the filter lets through in module overtake ----

  /** A control change of cable 0 that is not ceded reaches Move exactly if it is the master knob's
      or one of those the module passes through. */
  lemma ControlChangePassesIff(cfg: Config, channel: nat, cc: Byte, value: Byte, stamp: Word)
    requires cfg.moduleOvertake && channel < 16
    requires !CededToPeer(cfg, Event(0x0B, 0xB0 + channel, cc, value, stamp))
    ensures var e := Event(0x0B, 0xB0 + channel, cc, value, stamp);
            Pass(cfg, e) == (if cc == 79 || (cc < 128 && cc in cfg.passthrough) then e else Event(0, 0, 0, 0, stamp))
  {
    var e := Event(0x0B, 0xB0 + channel, cc, value, stamp);
    assert e.Type() == 0xB0 && e.Cable() == 0 && e.Cin() == 0x0B;
  }

  /** A note of cable 0 that is not ceded reaches Move exactly if it is the volume knob's touch. */
  lemma NotePassesIff(cfg: Config, on: bool, channel: nat, note: Byte, velocity: Byte, stamp: Word)
    requires cfg.moduleOvertake && channel < 16
    requires !CededToPeer(cfg, Event(if on then 0x09 else 0x08, (if on then 0x90 else 0x80) + channel,
                                     note, velocity, stamp))
    ensures var e := Event(if on then 0x09 else 0x08, (if on then 0x90 else 0x80) + channel, note, velocity, stamp);
            Pass(cfg, e) == if note == 8 then e else Event(0, 0, 0, 0, stamp)
  {
    var e := Event(if on then 0x09 else 0x08, (if on then 0x90 else 0x80) + channel, note, velocity, stamp);
    assert e.Type() == (if on then 0x90 else 0x80) && e.Cable() == 0;
  }

  /** Of what is ceded to Move only the knobs are withheld, and other cables and the metadata
      events below status 0x80 are never touched. */
  lemma RestPasses(cfg: Config, e: Event)
    requires cfg.moduleOvertake
    ensures CededToPeer(cfg, e) ==>
              (Pass(cfg, e) != e ==> !cfg.keepsKnobs && e.Type() == 0xB0 && 71 <= e.b2 <= 78)
    ensures CededToPeer(cfg, e) && !cfg.keepsKnobs && e.Type() == 0xB0 && 71 <= e.b2 <= 78 ==>
              Pass(cfg, e) == Event(0, 0, 0, 0, e.stamp)
    ensures e.b0 >= 16 ==> Pass(cfg, e) == e
    ensures e.b1 < 0x80 ==> Pass(cfg, e) == e
  {
  }

  // ---- Runs ----

  datatype Input = Input(cfg: Config, hw: seq<Event>)

  datatype State = State(acc: seq<Int16>, phase: Word, sh: seq<Event>)

  /** The state after one frame, as Frame's contract gives it. */
  function Next(s: State, input: Input): (t: State)
    requires |s.acc| == KNOBS
    ensures |t.acc| == KNOBS && |t.sh| == |input.hw|
  {
    var acc := Folded(input.cfg, input.hw, s.acc);
    var passed := Passed(input.cfg, input.hw);
    if EmitFrame(s.phase) then State(AfterEmit(acc), Wrap32(s.phase + 1), EmitFrom(acc, 0, passed))
    else State(acc, Wrap32(s.phase + 1), passed)
  }

  function After(inputs: seq<Input>): (s: State)
    ensures |s.acc| == KNOBS
    decreases |inputs|
  {
    if inputs == [] then State(Repeat(0, KNOBS), 0, [])
    else Next(After(inputs[..|inputs| - 1]), inputs[|inputs| - 1])
  }

  /** Detents of knob k withheld from Move over the run. */
  function TotalIn(inputs: seq<Input>, k: nat): int {
    if inputs == [] then 0
    else
      var last := inputs[|inputs| - 1];
      TotalIn(inputs[..|inputs| - 1], k) + Incoming(last.cfg, last.hw, k)
  }

  /** Detents of knob k shown to Move by synthetic events over the run. */
  function TotalOut(inputs: seq<Input>, k: nat): int {
    if inputs == [] then 0
    else
      TotalOut(inputs[..|inputs| - 1], k) + LastOut(inputs, k)
  }

  /** In the last frame of the run, knob k had a free slot, did not emit, or had nothing to emit. */
  predicate Room(inputs: seq<Input>, k: nat)
    requires inputs != [] && k < KNOBS
  {
    var s, last := After(inputs[..|inputs| - 1]), inputs[|inputs| - 1];
    var acc := Folded(last.cfg, last.hw, s.acc);
    !EmitFrame(s.phase) || acc[k] == 0 || FreeSlots(Passed(last.cfg, last.hw)) > Busy(acc, 0, k)
  }

  /** The 16-bit accumulator of knob k did not wrap in the last frame of the run. */
  predicate Fits(inputs: seq<Input>, k: nat)
    requires inputs != [] && k < KNOBS
  {
    var s, last := After(inputs[..|inputs| - 1]), inputs[|inputs| - 1];
    -32768 <= s.acc[k] + Incoming(last.cfg, last.hw, k) < 32768
  }

  /** Knob k's accumulator once the last frame's detents are folded in. */
  function LastFolded(inputs: seq<Input>, k: nat): Int16
    requires inputs != [] && k < KNOBS
  {
    var s, last := After(inputs[..|inputs| - 1]), inputs[|inputs| - 1];
    Wrap16(s.acc[k] + Incoming(last.cfg, last.hw, k))
  }

  function LastOut(inputs: seq<Input>, k: nat): int
    requires inputs != []
  {
    var last := inputs[|inputs| - 1];
    Shown(Passed(last.cfg, last.hw), After(inputs).sh, k)
  }

  predicate LastEmits(inputs: seq<Input>)
    requires inputs != []
  {
    EmitFrame(After(inputs[..|inputs| - 1]).phase)
  }

  /** What one frame does to knob k's books. */
  lemma FrameBalance(inputs: seq<Input>, k: nat)
    requires inputs != [] && k < KNOBS
    ensures var a := LastFolded(inputs, k);
            && After(inputs).acc[k] == (if LastEmits(inputs) then a - Clamp(a) else a)
            && LastOut(inputs, k) == (if LastEmits(inputs) && Room(inputs, k) then Clamp(a) else 0)
            && (!Room(inputs, k) ==> LastEmits(inputs) && Clamp(a) != 0)
    ensures var earlier := inputs[..|inputs| - 1];
            Fits(inputs, k) ==>
              LastFolded(inputs, k) == After(earlier).acc[k] + TotalIn(inputs, k) - TotalIn(earlier, k)
  {
    hide Shown, FreeSlots, Busy, EmitFrom, Incoming, EmitFrame;
    var s, last := After(inputs[..|inputs| - 1]), inputs[|inputs| - 1];
    var acc := Folded(last.cfg, last.hw, s.acc);
    var passed := Passed(last.cfg, last.hw);
    assert After(inputs) == Next(s, last);
    ShownNothing(passed, k);
    assert Extends(passed, passed);
    EmitShows(passed, acc, 0, passed, k);
  }

  /** Every detent taken in has been shown to Move or is still carried. */
  predicate Balanced(inputs: seq<Input>, k: nat)
    requires k < KNOBS
  {
    TotalIn(inputs, k) == TotalOut(inputs, k) + After(inputs).acc[k]
  }

  /** No motion is lost or invented: over every run in which each emitting knob finds a slot
      and no accumulator wraps, detents in == detents out + accumulator. */
  lemma {:induction false} Conservation(inputs: seq<Input>, k: nat)
    requires k < KNOBS
    requires forall n :: 0 < n <= |inputs| ==> Room(inputs[..n], k) && Fits(inputs[..n], k)
    ensures Balanced(inputs, k)
    decreases |inputs|
  {
    hide After, LastFolded, LastOut, LastEmits, Room, Fits, TotalIn;
    if inputs == [] {
      BooksStartEmpty(k);
    } else {
      var earlier := inputs[..|inputs| - 1];
      assert inputs[..|inputs|] == inputs;
      forall n | 0 < n <= |earlier|
        ensures Room(earlier[..n], k) && Fits(earlier[..n], k)
      {
        assert earlier[..n] == inputs[..n];
      }
      Conservation(earlier, k);
      FrameBalance(inputs, k);
    }
  }

  lemma BooksStartEmpty(k: nat)
    requires k < KNOBS
    ensures TotalIn([], k) == TotalOut([], k) == After([]).acc[k] == 0
  {
  }

  /** A frame keeps balanced books balanced exactly when its knob found a slot and its accumulator
      did not wrap: what is lost for want of a slot is too little to be made up for by a wrap. */
  lemma StaysBalancedIff(inputs: seq<Input>, k: nat)
    requires inputs != [] && k < KNOBS && Balanced(inputs[..|inputs| - 1], k)
    ensures Balanced(inputs, k) <==> Room(inputs, k) && Fits(inputs, k)
  {
    hide After, LastFolded, LastOut, LastEmits, Room, TotalIn, Fits;
    FrameBalance(inputs, k);
    FoldedModulo(inputs, k);
    FoldedIff(inputs, k);
  }

  lemma FoldedIff(inputs: seq<Input>, k: nat)
    requires inputs != [] && k < KNOBS
    ensures var earlier := inputs[..|inputs| - 1];
            Fits(inputs, k) <==>
            LastFolded(inputs, k) == After(earlier).acc[k] + TotalIn(inputs, k) - TotalIn(earlier, k)
  {
    hide After, Incoming;
  }

  /** The books balance at every point of a run exactly when every emitting knob found a slot and
      no accumulator wrapped: the carry is taken off the accumulator before a slot is looked for,
      and 16 bits hold about sixteen frames of the fastest turning. */
  lemma ConservedIff(inputs: seq<Input>, k: nat)
    requires k < KNOBS
    ensures (forall n :: 0 <= n <= |inputs| ==> Balanced(inputs[..n], k))
            <==> (forall n :: 0 < n <= |inputs| ==> Room(inputs[..n], k) && Fits(inputs[..n], k))
  {
    hide After, LastFolded, LastOut, LastEmits, Room, Fits, TotalIn, TotalOut;
    if forall n :: 0 < n <= |inputs| ==> Room(inputs[..n], k) && Fits(inputs[..n], k) {
      forall n | 0 <= n <= |inputs|
        ensures Balanced(inputs[..n], k)
      {
        forall m | 0 < m <= n
          ensures Room(inputs[..n][..m], k) && Fits(inputs[..n][..m], k)
        {
          assert inputs[..n][..m] == inputs[..m];
        }
        Conservation(inputs[..n], k);
      }
    }
    if n :| 0 < n <= |inputs| && !(Room(inputs[..n], k) && Fits(inputs[..n], k)) {
      assert inputs[..n][..n - 1] == inputs[..n - 1];
      if Balanced(inputs[..n - 1], k) {
        StaysBalancedIff(inputs[..n], k);
      }
    }
  }

  /** Even if an accumulator does wrap, the books stay balanced modulo 2^16 as long as there is room. */
  lemma {:induction false} ConservationModulo(inputs: seq<Input>, k: nat)
    requires k < KNOBS
    requires forall n :: 0 < n <= |inputs| ==> Room(inputs[..n], k)
    ensures (TotalIn(inputs, k) - TotalOut(inputs, k) - After(inputs).acc[k]) % 65536 == 0
    decreases |inputs|
  {
    hide After, LastOut, LastEmits, Room, TotalIn, Incoming;
    if inputs == [] {
      BooksStartEmpty(k);
    } else {
      var earlier := inputs[..|inputs| - 1];
      assert inputs[..|inputs|] == inputs;
      forall n | 0 < n <= |earlier|
        ensures Room(earlier[..n], k)
      {
        assert earlier[..n] == inputs[..n];
      }
      ConservationModulo(earlier, k);
      FrameBalance(inputs, k);
      FoldedModulo(inputs, k);
    }
  }

  lemma FoldedModulo(inputs: seq<Input>, k: nat)
    requires inputs != [] && k < KNOBS
    ensures (LastFolded(inputs, k) - After(inputs[..|inputs| - 1]).acc[k]
             - (TotalIn(inputs, k) - TotalIn(inputs[..|inputs| - 1], k))) % 65536 == 0
  {
    hide After, Incoming;
  }

  // ---- Cadence and carry ----

  lemma WrapNext(n: nat)
    ensures Wrap32(0) == 0
    ensures Wrap32(Wrap32(n) + 1) == Wrap32(n + 1)
  {
  }

  lemma {:induction false} PhaseCounts(inputs: seq<Input>)
    ensures After(inputs).phase == Wrap32(|inputs|)
    decreases |inputs|
  {
    hide EmitFrom, Folded, AfterEmit, EmitFrame, Wrap32;
    if inputs == [] {
      WrapNext(0);
    } else {
      PhaseCounts(inputs[..|inputs| - 1]);
      WrapNext(|inputs| - 1);
    }
  }

  /** Every frame whose number is not a multiple of four is left with no synthetic event at
      all, across any number of wraps of the 32-bit phase. */
  lemma QuietFrames(inputs: seq<Input>)
    requires |inputs| % EMIT_PERIOD != 0
    ensures var last := inputs[|inputs| - 1]; After(inputs).sh == Passed(last.cfg, last.hw)
  {
    PhaseCounts(inputs[..|inputs| - 1]);
    EmitNumbers(|inputs| - 1);
  }

  /** The emission period divides 2^32, so wrapping does not disturb the cadence. */
  lemma WrapKeepsCadence(x: int)
    ensures Wrap32(x) % EMIT_PERIOD == x % EMIT_PERIOD
  {
    var q := x / TWO32;
    var w := Wrap32(x);
    AddPeriods(w, q * 0x4000_0000);
    assert x == w + EMIT_PERIOD * (q * 0x4000_0000);
  }

  lemma AddPeriods(w: int, k: int)
    ensures (w + EMIT_PERIOD * k) % EMIT_PERIOD == w % EMIT_PERIOD
  {
  }

  lemma EmitNumbers(n: nat)
    ensures EmitFrame(Wrap32(n)) <==> (n + 1) % EMIT_PERIOD == 0
  {
    hide Wrap32;
    WrapNext(n);
    WrapKeepsCadence(n + 1);
  }

  /** Emission frames among the n frames that follow the first `past`. */
  function Emits(past: nat, n: nat): nat {
    (past + n) / EMIT_PERIOD - past / EMIT_PERIOD
  }

  /** What is left of a carry a after m emissions. */
  function Left(a: int, m: nat): int {
    if a >= 0 then Max(0, a - 63 * m) else Min(0, a + 63 * m)
  }

  /** Once knob k gets no more detents, from whatever frame on, its carry shrinks by up to 63 on
      every fourth frame, so it reaches zero after ceil(|a| / 63) emissions and not before. */
  lemma {:induction false} CarryDrains(start: seq<Input>, more: seq<Input>, k: nat)
    requires k < KNOBS
    requires forall input :: input in more ==> Incoming(input.cfg, input.hw, k) == 0
    ensures After(start + more).acc[k] == Left(After(start).acc[k], Emits(|start|, |more|))
    decreases |more|
  {
    hide Incoming, After, Left, Clamp, Emits;
    var a := After(start).acc[k];
    if more == [] {
      assert start + more == start;
      LeftStart(a, |start|);
    } else {
      var n := |more| - 1;
      var all := start + more;
      assert all[..|all| - 1] == start + more[..n];
      assert all[|all| - 1] == more[n] && more[n] in more;
      assert forall input :: input in more[..n] ==> input in more;
      CarryDrains(start, more[..n], k);
      DrainStep(all, k);
      LeftStep(a, |start|, n);
    }
  }

  lemma LeftStart(a: int, past: nat)
    ensures Left(a, Emits(past, 0)) == a
  {
  }

  lemma LeftStep(a: int, past: nat, n: nat)
    ensures var x := Left(a, Emits(past, n));
            Left(a, Emits(past, n + 1)) == if (past + n + 1) % EMIT_PERIOD == 0 then x - Clamp(x) else x
  {
  }

  /** A frame without detents of knob k takes up to 63 off its carry if it is a fourth frame. */
  lemma DrainStep(inputs: seq<Input>, k: nat)
    requires inputs != [] && k < KNOBS
    requires var last := inputs[|inputs| - 1]; Incoming(last.cfg, last.hw, k) == 0
    ensures var a := After(inputs[..|inputs| - 1]).acc[k];
            After(inputs).acc[k] == if |inputs| % EMIT_PERIOD == 0 then a - Clamp(a) else a
  {
    hide Incoming, EmitFrame, Room, LastOut;
    FrameBalance(inputs, k);
    PhaseCounts(inputs[..|inputs| - 1]);
    EmitNumbers(|inputs| - 1);
  }

  lemma CarryReachesZeroIff(a: int, m: nat)
    ensures Left(a, m) == 0 <==> Abs(a) <= 63 * m
  {
  }

  // ---- How motion is lost ----

  /** In a frame without room, from balanced books, the clamped carry goes missing: it has left
      the accumulator and Move has not seen it. */
  lemma LostWithoutRoom(inputs: seq<Input>, k: nat)
    requires inputs != [] && k < KNOBS && Fits(inputs, k) && !Room(inputs, k)
    requires Balanced(inputs[..|inputs| - 1], k)
    ensures TotalIn(inputs, k) - TotalOut(inputs, k) - After(inputs).acc[k] == Clamp(LastFolded(inputs, k)) != 0
  {
    hide After, LastFolded, LastOut, LastEmits, Room, Fits, TotalIn;
    FrameBalance(inputs, k);
  }

  const SILENCE := Event(0, 0, 0, 0, 0)
  const PAD_PRESS := Event(0x09, 0x90, 60, 100, 0)
  const FIVE_DETENTS := Event(0x0B, 0xB0, FIRST_KNOB_CC, 5, 0)

  /** A frame with five detents of knob 0 to withhold, two silent frames, and a frame full of pad
      presses that pass to Move. */
  function LosingRun(cfg: Config): (r: seq<Input>)
    ensures |r| == 4
  {
    var silent := Input(cfg, Repeat(SILENCE, EVENTS));
    [Input(cfg, Repeat(SILENCE, EVENTS - 1) + [FIVE_DETENTS]), silent, silent, Input(cfg, Repeat(PAD_PRESS, EVENTS))]
  }

  lemma {:induction false} IncomingRepeated(cfg: Config, e: Event, n: nat, k: nat)
    requires k < KNOBS
    ensures Incoming(cfg, Repeat(e, n), k) == n * Detents(cfg, e, k)
  {
    hide Detents;
    if n > 0 {
      assert Repeat(e, n)[..n - 1] == Repeat(e, n - 1);
      IncomingRepeated(cfg, e, n - 1, k);
    }
  }

  /** Module overtake with knob 0 and the pads ceded to Move. */
  predicate CedesKnobAndPads(cfg: Config) {
    && cfg.moduleOvertake && cfg.moveNative && !cfg.keepsKnobs
    && cfg.ownedByPeer(0xB0, FIRST_KNOB_CC) && cfg.ownedByPeer(0x90, PAD_PRESS.b2)
  }

  lemma KnobIsCeded(cfg: Config)
    requires CedesKnobAndPads(cfg)
    ensures Detents(cfg, FIVE_DETENTS, 0) == 5
  {
    hide Detent;
    assert FIVE_DETENTS.Type() == 0xB0 && FIVE_DETENTS.Cable() == 0;
    assert Coalesced(cfg, FIVE_DETENTS);
    assert Detent(FIVE_DETENTS.b3) == 5 by { DetentOf(5); }
  }

  lemma DetentOf(d: Byte)
    requires 1 <= d <= 63
    ensures Detent(d) == d
  {
  }

  lemma PadPasses(cfg: Config)
    requires CedesKnobAndPads(cfg)
    ensures Pass(cfg, PAD_PRESS) == PAD_PRESS && Detents(cfg, PAD_PRESS, 0) == 0
  {
    hide Detent;
    assert PAD_PRESS.Type() == 0x90 && PAD_PRESS.Cable() == 0;
    assert !Coalesced(cfg, PAD_PRESS);
    assert CededToPeer(cfg, PAD_PRESS);
  }

  lemma SilenceIsNoDetent(cfg: Config)
    ensures Detents(cfg, SILENCE, 0) == 0
  {
    assert SILENCE.b2 == 0;
  }

  lemma FirstLosingFrame(cfg: Config)
    requires CedesKnobAndPads(cfg)
    ensures Incoming(cfg, LosingRun(cfg)[0].hw, 0) == 5
  {
    hide Incoming, Detents;
    SilenceIsNoDetent(cfg);
    KnobIsCeded(cfg);
    IncomingRepeated(cfg, SILENCE, EVENTS - 1, 0);
    var first := LosingRun(cfg)[0].hw;
    IncomingLast(cfg, first, 0);
    assert first[..|first| - 1] == Repeat(SILENCE, EVENTS - 1);
  }

  /** The detents each frame of the run withholds from knob 0, and its last frame's lack of room. */
  lemma LosingFrames(cfg: Config)
    requires CedesKnobAndPads(cfg)
    ensures var run := LosingRun(cfg);
            && (forall i :: 0 <= i < 4 ==> Incoming(run[i].cfg, run[i].hw, 0) == if i == 0 then 5 else 0)
            && FreeSlots(Passed(run[3].cfg, run[3].hw)) == 0
  {
    hide Incoming, Detents, CedesKnobAndPads, FreeSlots, Pass;
    SilenceIsNoDetent(cfg);
    PadPasses(cfg);
    FirstLosingFrame(cfg);
    IncomingRepeated(cfg, SILENCE, EVENTS, 0);
    IncomingRepeated(cfg, PAD_PRESS, EVENTS, 0);
    NoFreeSlots(Passed(cfg, Repeat(PAD_PRESS, EVENTS)));
  }

  /** A frame that does not emit only folds its detents in. */
  lemma QuietStep(inputs: seq<Input>, k: nat)
    requires |inputs| % EMIT_PERIOD != 0 && k < KNOBS && Fits(inputs, k)
    ensures var earlier, last := inputs[..|inputs| - 1], inputs[|inputs| - 1];
            var d := Incoming(last.cfg, last.hw, k);
            && After(inputs).acc[k] == After(earlier).acc[k] + d
            && TotalIn(inputs, k) == TotalIn(earlier, k) + d
            && TotalOut(inputs, k) == TotalOut(earlier, k)
  {
    hide Incoming, EmitFrame, Room, LastOut, After;
    FrameBalance(inputs, k);
    PhaseCounts(inputs[..|inputs| - 1]);
    EmitNumbers(|inputs| - 1);
  }

  /** The fourth frame of a run emits, and has no room if nothing in it is free. */
  lemma FullFrame(inputs: seq<Input>)
    requires inputs != [] && |inputs| % EMIT_PERIOD == 0
    requires var last := inputs[|inputs| - 1];
             Incoming(last.cfg, last.hw, 0) == 0 && FreeSlots(Passed(last.cfg, last.hw)) == 0
    requires After(inputs[..|inputs| - 1]).acc[0] != 0
    ensures Fits(inputs, 0) && !Room(inputs, 0)
    ensures LastFolded(inputs, 0) == After(inputs[..|inputs| - 1]).acc[0]
  {
    hide Incoming, EmitFrame, After, FreeSlots;
    PhaseCounts(inputs[..|inputs| - 1]);
    EmitNumbers(|inputs| - 1);
  }

  /** Such a run loses its detents: the books balance for three frames, and after the fourth
      the five detents are neither shown nor carried. */
  lemma RunThatLoses(cfg: Config)
    requires CedesKnobAndPads(cfg)
    ensures var run := LosingRun(cfg);
            && (forall n :: 0 < n <= 4 ==> Fits(run[..n], 0))
            && (forall n :: 0 <= n <= 3 ==> Balanced(run[..n], 0))
            && !Room(run, 0) && !Balanced(run, 0)
            && TotalIn(run, 0) == 5 && TotalOut(run, 0) == 0 && After(run).acc[0] == 0
  {
    hide After, TotalIn, TotalOut, Incoming, Passed, FreeSlots, LosingRun, Room, LastFolded, CedesKnobAndPads;
    var run := LosingRun(cfg);
    LosingFrames(cfg);
    BooksStartEmpty(0);
    assert run[..0] == [] && run[..4] == run;
    for n := 1 to 4
      invariant forall m :: 0 < m < n ==> Fits(run[..m], 0) && After(run[..m]).acc[0] == TotalIn(run[..m], 0) == 5
      invariant forall m :: 0 <= m < n ==> Balanced(run[..m], 0) && TotalOut(run[..m], 0) == 0
    {
      assert run[..n][..n - 1] == run[..n - 1];
      QuietStep(run[..n], 0);
    }
    assert run[..3] == run[..|run| - 1];
    FullFrame(run);
    LostWithoutRoom(run, 0);
    LastFrameBooks(run);
  }

  /** What the fourth frame does to the books of knob 0. */
  lemma LastFrameBooks(run: seq<Input>)
    requires |run| == 4 && Fits(run, 0) && !Room(run, 0) && LastFolded(run, 0) == 5
    requires var last := run[3]; Incoming(last.cfg, last.hw, 0) == 0
    ensures After(run).acc[0] == 0
    ensures TotalIn(run, 0) == TotalIn(run[..3], 0) && TotalOut(run, 0) == TotalOut(run[..3], 0)
  {
    hide After, LastOut, LastEmits, Room, Fits, Incoming;
    FrameBalance(run, 0);
  }

  // ---- How an accumulator wraps ----

  const FULL_TURN := Event(0x0B, 0xB0, FIRST_KNOB_CC, 63, 0)

  /** n frames full of the largest step of knob 0. */
  function TurningRun(cfg: Config, n: nat): (r: seq<Input>)
    ensures |r| == n
  {
    Repeat(Input(cfg, Repeat(FULL_TURN, EVENTS)), n)
  }

  lemma FullTurnIsCeded(cfg: Config)
    requires CedesKnobAndPads(cfg)
    ensures Detents(cfg, FULL_TURN, 0) == 63 && Pass(cfg, FULL_TURN).Free()
  {
    hide Detent;
    assert FULL_TURN.Type() == 0xB0 && FULL_TURN.Cable() == 0;
    assert Coalesced(cfg, FULL_TURN);
    assert Detent(FULL_TURN.b3) == 63 by { DetentOf(63); }
  }

  /** Each of these frames withholds 2016 detents, and has room. */
  lemma TurningFrame(cfg: Config, n: nat)
    requires CedesKnobAndPads(cfg) && n > 0
    ensures Room(TurningRun(cfg, n), 0)
    ensures Incoming(cfg, Repeat(FULL_TURN, EVENTS), 0) == 2016
  {
    hide Incoming, Detents, CedesKnobAndPads, FreeSlots, Pass, After, EmitFrame;
    FullTurnIsCeded(cfg);
    IncomingRepeated(cfg, FULL_TURN, EVENTS, 0);
    var passed := Passed(cfg, Repeat(FULL_TURN, EVENTS));
    NoFreeSlots(passed);
    assert passed[0].Free();
  }

  /** The carry n of them leave: 63 detents have been shown on every fourth frame. */
  function TurningLeft(n: nat): int {
    2016 * n - 63 * (n / EMIT_PERIOD)
  }

  lemma TurningLeftStep(n: nat)
    requires 1 <= n <= 16
    ensures var a := TurningLeft(n - 1) + 2016;
            a < 32768 && TurningLeft(n) == if n % EMIT_PERIOD == 0 then a - Clamp(a) else a
    ensures TurningLeft(n - 1) >= 0
  {
  }

  lemma TurningStep(cfg: Config, n: nat)
    requires CedesKnobAndPads(cfg) && 1 <= n <= 16
    requires After(TurningRun(cfg, n - 1)).acc[0] == TurningLeft(n - 1)
    ensures Fits(TurningRun(cfg, n), 0) && After(TurningRun(cfg, n)).acc[0] == TurningLeft(n)
  {
    hide Incoming, CedesKnobAndPads, After, EmitFrame, Room, LastOut, TurningLeft, Clamp;
    var run := TurningRun(cfg, n);
    assert run[..n - 1] == TurningRun(cfg, n - 1);
    TurningFrame(cfg, n);
    TurningLeftStep(n);
    FrameBalance(run, 0);
    PhaseCounts(run[..n - 1]);
    EmitNumbers(n - 1);
  }

  lemma {:induction false} TurningCarry(cfg: Config, n: nat)
    requires CedesKnobAndPads(cfg) && n <= 16
    ensures After(TurningRun(cfg, n)).acc[0] == TurningLeft(n)
    ensures forall m :: 0 < m <= n ==> Fits(TurningRun(cfg, n)[..m], 0)
  {
    hide CedesKnobAndPads, After, Fits;
    var run := TurningRun(cfg, n);
    if n == 0 {
      BooksStartEmpty(0);
      assert run == [];
    } else {
      TurningCarry(cfg, n - 1);
      TurningStep(cfg, n);
      assert run[..n] == run;
      forall m | 0 < m < n
        ensures Fits(run[..m], 0)
      {
        assert run[..m] == TurningRun(cfg, n - 1)[..m];
      }
    }
  }

  /** Seventeen frames with room throughout that lose motion all the same: the books balance for
      sixteen of them, and then the accumulator wraps. */
  lemma RunThatWraps(cfg: Config)
    requires CedesKnobAndPads(cfg)
    ensures var run := TurningRun(cfg, 17);
            && (forall n :: 0 < n <= 17 ==> Room(run[..n], 0))
            && Balanced(run[..16], 0) && !Fits(run, 0) && !Balanced(run, 0)
  {
    hide After, TotalIn, TotalOut, Incoming, Room, LastFolded, CedesKnobAndPads, Fits;
    var run := TurningRun(cfg, 17);
    forall n | 0 < n <= 17
      ensures Room(run[..n], 0)
    {
      assert run[..n] == TurningRun(cfg, n);
      TurningFrame(cfg, n);
    }
    var most := TurningRun(cfg, 16);
    assert run[..16] == most;
    TurningCarry(cfg, 16);
    forall n | 0 < n <= 16
      ensures Room(most[..n], 0) && Fits(most[..n], 0)
    {
      assert most[..n] == run[..n];
    }
    Conservation(most, 0);
    LastTurn(cfg);
    StaysBalancedIff(run, 0);
  }

  lemma LastTurn(cfg: Config)
    requires CedesKnobAndPads(cfg) && After(TurningRun(cfg, 16)).acc[0] == 32004
    ensures !Fits(TurningRun(cfg, 17), 0)
  {
    hide After, Incoming, CedesKnobAndPads;
    TurningFrame(cfg, 17);
    assert TurningRun(cfg, 17)[..16] == TurningRun(cfg, 16);
  }
}
