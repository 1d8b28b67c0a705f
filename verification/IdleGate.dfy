/** The idle gate: a slot whose synth has been silent is rendered only on staggered probe frames. */
module IdleGate {
  import opened Machine

  const SLOTS := 4
  const IDLE_THRESHOLD := 344
  const SILENCE_LEVEL := 4
  const PROBE_WINDOW := 172
  const STAGGER := 43

  /** One slot's counted silent frames and its idle flag. */
  datatype Gate = Gate(frames: nat, idle: bool)

  /** What a frame brings to a slot. `output` is the block the silence scan would read. */
  datatype Input = Input(active: bool, fading: bool, output: seq<int>)

  const AWAKE := Gate(0, false)

  predicate Silent(output: seq<int>) {
    forall i :: 0 <= i < |output| ==> -SILENCE_LEVEL <= output[i] <= SILENCE_LEVEL
  }

  /** An idle slot probes on this frame. The counter has already been advanced when it is compared. */
  predicate Probes(g: Gate, s: nat) {
    g.idle && (g.frames + 1 + s * STAGGER) % PROBE_WINDOW == 0
  }

  /** The silence bookkeeping of one rendered frame. */
  function Judge(g: Gate, silent: bool): Gate {
    if !silent then AWAKE
    else Gate(g.frames + 1, g.idle || g.frames + 1 >= IDLE_THRESHOLD)
  }

  /** One frame of slot s. A probe that stays silent advances the counter twice. */
  function Step(g: Gate, s: nat, input: Input): Gate {
    if !input.active then g
    else
      var h := if input.fading then AWAKE else g;
      if !h.idle then Judge(h, Silent(input.output))
      else if !Probes(h, s) then Gate(h.frames + 1, true)
      else Judge(Gate(h.frames + 1, true), Silent(input.output))
  }

  predicate Renders(g: Gate, s: nat, input: Input) {
    input.active && (input.fading || !g.idle || Probes(g, s))
  }

  /** The shim's per-slot arrays and the frame loop over them. */
  class Scheduler {
    const silenceFrames: array<nat>
    const idle: array<bool>

    ghost predicate Valid()
      reads this
    {
      silenceFrames.Length == SLOTS && idle.Length == SLOTS
    }

    function Slot(s: nat): Gate
      requires Valid() && s < SLOTS
      reads this, silenceFrames, idle
    {
      Gate(silenceFrames[s], idle[s])
    }

    constructor ()
      ensures Valid() && fresh(silenceFrames) && fresh(idle)
      ensures forall s :: 0 <= s < SLOTS ==> Slot(s) == AWAKE
    {
      silenceFrames := new nat[SLOTS](_ => 0);
      idle := new bool[SLOTS](_ => false);
    }

    /** Wake-ups from outside the frame loop (MIDI dispatch, wake_slots). */
    method Wake(s: nat)
      requires Valid() && s < SLOTS
      modifies silenceFrames, idle
      ensures Slot(s) == AWAKE
      ensures forall t :: 0 <= t < SLOTS && t != s ==> Slot(t) == old(Slot(t))
    {
      idle[s] := false;
      silenceFrames[s] := 0;
    }

    /** The loop body for one slot: it takes its Step, and is rendered when Renders says so. */
    method FrameSlot(s: nat, input: Input) returns (rendered: bool, probed: bool)
      requires Valid() && s < SLOTS
      modifies silenceFrames, idle
      ensures Slot(s) == Step(old(Slot(s)), s, input)
      ensures forall t :: 0 <= t < SLOTS && t != s ==> Slot(t) == old(Slot(t))
      ensures rendered == Renders(old(Slot(s)), s, input)
      ensures probed == (input.active && !input.fading && Probes(old(Slot(s)), s))
    {
      if !input.active {
        return false, false;
      }
      if input.fading {
        idle[s] := false;
        silenceFrames[s] := 0;
      }
      probed := false;
      if idle[s] {
        silenceFrames[s] := silenceFrames[s] + 1;
        if (silenceFrames[s] + s * STAGGER) % PROBE_WINDOW != 0 {
          return false, false;
        }
        probed := true;
      }
      var silent := IsSilent(input.output);
      if silent {
        silenceFrames[s] := silenceFrames[s] + 1;
        if silenceFrames[s] >= IDLE_THRESHOLD {
          idle[s] := true;
        }
      } else {
        silenceFrames[s] := 0;
        idle[s] := false;
      }
      rendered := true;
    }

    /** One call of the deferred renderer: every slot takes its Step, exactly the slots that
        Renders names are rendered, and the burst counter is the number of probing slots. */
    method Frame(inputs: seq<Input>) returns (rendered: seq<bool>, probeBurst: nat)
      requires Valid() && |inputs| == SLOTS
      modifies silenceFrames, idle
      ensures forall s :: 0 <= s < SLOTS ==> Slot(s) == Step(old(Slot(s)), s, inputs[s])
      ensures |rendered| == SLOTS
      ensures forall s :: 0 <= s < SLOTS ==> rendered[s] == Renders(old(Slot(s)), s, inputs[s])
      ensures probeBurst == |set s | 0 <= s < SLOTS && inputs[s].active && !inputs[s].fading && Probes(old(Slot(s)), s)|
    {
      hide Step, Probes, Renders;
      rendered := [];
      probeBurst := 0;
      ghost var probing: set<int> := {};
      for s := 0 to SLOTS
        invariant |rendered| == s && probeBurst == |probing|
        invariant probing == set t | 0 <= t < s && inputs[t].active && !inputs[t].fading && Probes(old(Slot(t)), t)
        invariant forall t :: 0 <= t < s ==> Slot(t) == Step(old(Slot(t)), t, inputs[t])
        invariant forall t :: s <= t < SLOTS ==> Slot(t) == old(Slot(t))
        invariant forall t :: 0 <= t < s ==> rendered[t] == Renders(old(Slot(t)), t, inputs[t])
      {
        var r, p := FrameSlot(s, inputs[s]);
        rendered := rendered + [r];
        if p {
          probeBurst := probeBurst + 1;
          probing := probing + {s};
        }
      }
    }
  }

  /** The early-exit silence scan. */
  method IsSilent(output: seq<int>) returns (silent: bool)
    ensures silent == Silent(output)
  {
    silent := true;
    for i := 0 to |output|
      invariant forall j :: 0 <= j < i ==> -SILENCE_LEVEL <= output[j] <= SILENCE_LEVEL
      invariant silent
    {
      if output[i] > SILENCE_LEVEL || output[i] < -SILENCE_LEVEL {
        return false;
      }
    }
  }

  // ---- What idle means, over any history ----

  datatype Event = Frame(input: Input) | Wake

  function Happen(g: Gate, s: nat, e: Event): Gate {
    match e
    case Frame(input) => Step(g, s, input)
    case Wake => AWAKE
  }

  function History(g: Gate, s: nat, events: seq<Event>): Gate
    decreases |events|
  {
    if events == [] then g
    else Happen(History(g, s, events[..|events| - 1]), s, events[|events| - 1])
  }

  /** A slot is idle exactly when at least 344 silent frames have been counted since it last
      woke, and it enters idle with the counter at exactly 344. */
  lemma {:induction false} IdleIffThreshold(s: nat, events: seq<Event>)
    ensures var g := History(AWAKE, s, events); g.idle <==> g.frames >= IDLE_THRESHOLD
    ensures events != [] ==>
      var g := History(AWAKE, s, events[..|events| - 1]);
      var h := History(AWAKE, s, events);
      !g.idle && h.idle ==> h.frames == IDLE_THRESHOLD
    decreases |events|
  {
    if events != [] {
      IdleIffThreshold(s, events[..|events| - 1]);
    }
  }

  lemma {:induction false} HistoryAppend(g: Gate, s: nat, a: seq<Event>, b: seq<Event>)
    ensures History(g, s, a + b) == History(History(g, s, a), s, b)
    decreases |b|
  {
    hide Happen;
    if b == [] {
      assert a + b == a;
    } else {
      var n := |b| - 1;
      assert (a + b)[..|a + b| - 1] == a + b[..n];
      HistoryAppend(g, s, a, b[..n]);
    }
  }

  /** A frame in which the slot is not active counts for nothing, wherever it falls in a history. */
  lemma InactiveCountsNothing(g: Gate, s: nat, before: seq<Event>, input: Input, after: seq<Event>)
    requires !input.active
    ensures History(g, s, before + [Frame(input)] + after) == History(g, s, before + after)
    ensures !Renders(History(g, s, before), s, input)
  {
    HistoryAppend(g, s, before + [Frame(input)], after);
    HistoryAppend(g, s, before, [Frame(input)]);
    HistoryAppend(g, s, before, after);
    assert [Frame(input)][..0] == [];
  }

  /** A fading frame is rendered and wakes the slot, whatever came before; if it is silent itself it
      counts as the first silent frame. */
  lemma FadingStartsOver(g: Gate, s: nat, before: seq<Event>, input: Input)
    requires input.active && input.fading
    ensures History(g, s, before + [Frame(input)]) == Gate(if Silent(input.output) then 1 else 0, false)
    ensures Renders(History(g, s, before), s, input)
  {
    HistoryAppend(g, s, before, [Frame(input)]);
    assert [Frame(input)][..0] == [];
  }

  /** An awake slot is rendered in every active frame, and a sounding one is awake after it. */
  lemma AwakeIsRendered(g: Gate, s: nat, before: seq<Event>, input: Input)
    requires input.active && !History(g, s, before).idle
    ensures Renders(History(g, s, before), s, input)
    ensures !Silent(input.output) ==> History(g, s, before + [Frame(input)]) == AWAKE
  {
    HistoryAppend(g, s, before, [Frame(input)]);
    assert [Frame(input)][..0] == [];
  }

  // ---- Probe timing of a slot that stays silent ----

  /** n active, non-fading frames whose output, if rendered, is silent. */
  function SilentRun(g: Gate, s: nat, n: nat): Gate {
    if n == 0 then g else Step(SilentRun(g, s, n - 1), s, Input(true, false, []))
  }

  /** Nothing about a silent block matters but its silence: any stretch of silent frames is a SilentRun. */
  lemma {:induction false} AnySilentRun(g: Gate, s: nat, events: seq<Event>)
    requires forall e :: e in events ==> e.Frame? && e.input.active && !e.input.fading && Silent(e.input.output)
    ensures History(g, s, events) == SilentRun(g, s, |events|)
    decreases |events|
  {
    if events != [] {
      AnySilentRun(g, s, events[..|events| - 1]);
      assert events[|events| - 1] in events;
    }
  }

  /** From awake it takes exactly 344 silent frames in a row to fall idle. */
  lemma {:induction false} IdleAfter344(s: nat, n: nat)
    ensures n <= IDLE_THRESHOLD ==> SilentRun(AWAKE, s, n) == Gate(n, n == IDLE_THRESHOLD)
    ensures SilentRun(AWAKE, s, n).idle <==> n >= 344
  {
    if n > 0 {
      IdleAfter344(s, n - 1);
      IdleStays(SilentRun(AWAKE, s, n - 1), s);
    }
  }

  lemma IdleStays(g: Gate, s: nat)
    ensures g.idle ==> Step(g, s, Input(true, false, [])).idle
  {
  }

  /** Frames from now, counting the next as 1, to the slot's next probe. */
  function Countdown(g: Gate, s: nat): (c: nat)
    ensures 1 <= c <= PROBE_WINDOW
  {
    PROBE_WINDOW - (g.frames + s * STAGGER) % PROBE_WINDOW
  }

  lemma NextInWindow(x: nat)
    ensures (x + 1) % PROBE_WINDOW == if x % PROBE_WINDOW == PROBE_WINDOW - 1 then 0 else x % PROBE_WINDOW + 1
  {
  }

  /** The countdown runs to 1, the probe happens, and because that frame counts twice
      the next countdown starts from 171. */
  lemma CountdownStep(g: Gate, s: nat)
    requires g.idle
    ensures Probes(g, s) <==> Countdown(g, s) == 1
    ensures var h := SilentRun(g, s, 1);
            h.idle && Countdown(h, s) == if Countdown(g, s) == 1 then PROBE_WINDOW - 1 else Countdown(g, s) - 1
  {
    assert SilentRun(g, s, 0) == g;
    var k := g.frames + s * STAGGER;
    assert g.frames + 1 + s * STAGGER == k + 1 && g.frames + 2 + s * STAGGER == k + 2;
    NextInWindow(k);
    NextInWindow(k + 1);
  }

  /** The j-th frame from g on is a probe frame. */
  predicate ProbesAt(g: Gate, s: nat, j: nat)
    requires j >= 1
  {
    Probes(SilentRun(g, s, j - 1), s)
  }

  /** What a countdown that started at c reads just before its j-th frame. */
  function Phase(c: nat, j: nat): int {
    if j <= c then c - j + 1 else PROBE_WINDOW - 1 - (j - c - 1) % (PROBE_WINDOW - 1)
  }

  lemma PhaseStep(c: nat, j: nat)
    requires c >= 1 && j >= 1
    ensures Phase(c, j + 1) == if Phase(c, j) == 1 then PROBE_WINDOW - 1 else Phase(c, j) - 1
    ensures Phase(c, j) == 1 <==> j >= c && (j - c) % (PROBE_WINDOW - 1) == 0
  {
    if j > c {
      NextInPeriod(j - c - 1);
    }
  }

  lemma NextInPeriod(x: nat)
    ensures var r := x % (PROBE_WINDOW - 1);
            (x + 1) % (PROBE_WINDOW - 1) == if r == PROBE_WINDOW - 2 then 0 else r + 1
  {
  }

  lemma {:induction false} CountdownPhase(g: Gate, s: nat, j: nat)
    requires g.idle && j >= 1
    ensures var h := SilentRun(g, s, j - 1);
            h.idle && Countdown(h, s) == Phase(Countdown(g, s), j)
    decreases j
  {
    hide Countdown, Phase, Step;
    if j == 1 {
      assert Phase(Countdown(g, s), 1) == Countdown(g, s) by { PhaseStart(Countdown(g, s)); }
    } else {
      var h := SilentRun(g, s, j - 2);
      CountdownPhase(g, s, j - 1);
      CountdownStep(h, s);
      PhaseStep(Countdown(g, s), j - 1);
      assert SilentRun(h, s, 0) == h;
      assert SilentRun(h, s, 1) == SilentRun(g, s, j - 1);
    }
  }

  lemma PhaseStart(c: nat)
    requires c >= 1
    ensures Phase(c, 1) == c
  {
  }

  /** Exactly the frames c, c + 171, c + 342, ... are probes: the period is 171, not 172. */
  lemma ProbeTimes(g: Gate, s: nat, j: nat)
    requires g.idle && j >= 1
    ensures ProbesAt(g, s, j) <==> j >= Countdown(g, s) && (j - Countdown(g, s)) % (PROBE_WINDOW - 1) == 0
  {
    hide Countdown, Phase, Probes, SilentRun;
    CountdownPhase(g, s, j);
    CountdownStep(SilentRun(g, s, j - 1), s);
    PhaseStep(Countdown(g, s), j);
  }

  /** Any 172 consecutive frames of an idle slot contain a probe. */
  lemma ProbedInEveryWindow(g: Gate, s: nat)
    requires g.idle
    ensures exists j :: 1 <= j <= PROBE_WINDOW && ProbesAt(g, s, j)
  {
    ProbeTimes(g, s, Countdown(g, s));
  }

  // ---- When do two slots probe together? ----

  /** Two silent idle slots ever probe on one frame exactly when their countdowns
      agree modulo 171. */
  lemma CollideIff(g: Gate, s: nat, h: Gate, t: nat)
    requires g.idle && h.idle
    ensures (exists j :: j >= 1 && ProbesAt(g, s, j) && ProbesAt(h, t, j))
            <==> (Countdown(g, s) - Countdown(h, t)) % (PROBE_WINDOW - 1) == 0
  {
    var c, d := Countdown(g, s), Countdown(h, t);
    if j :| j >= 1 && ProbesAt(g, s, j) && ProbesAt(h, t, j) {
      ProbeTimes(g, s, j);
      ProbeTimes(h, t, j);
      CongruentDifference(j, c, d);
    }
    if (c - d) % (PROBE_WINDOW - 1) == 0 {
      var j := Max(c, d);
      CongruentDifference(j, c, d);
      ProbeTimes(g, s, j);
      ProbeTimes(h, t, j);
    }
  }

  lemma CongruentDifference(j: nat, c: nat, d: nat)
    requires (j - c) % (PROBE_WINDOW - 1) == 0 || (j - d) % (PROBE_WINDOW - 1) == 0
    ensures (c - d) % (PROBE_WINDOW - 1) == 0 <==>
            (j - c) % (PROBE_WINDOW - 1) == 0 && (j - d) % (PROBE_WINDOW - 1) == 0
  {
  }

  const JUST_IDLE := Gate(IDLE_THRESHOLD, true)

  /** Slots that went idle on the same frame never probe together while they stay silent. */
  lemma SameFrameNeverCollides(s: nat, t: nat, j: nat)
    requires s < SLOTS && t < SLOTS && s != t && j >= 1
    ensures !(ProbesAt(JUST_IDLE, s, j) && ProbesAt(JUST_IDLE, t, j))
  {
    hide ProbesAt, Countdown;
    CollideIff(JUST_IDLE, s, JUST_IDLE, t);
    FirstCountdown(s);
    FirstCountdown(t);
  }

  /** Slots that went idle `lag` frames apart do probe together exactly when the lag
      cancels the stagger, so the stagger alone does not keep probes apart. */
  lemma StaggerIff(s: nat, t: nat, lag: nat)
    requires s < SLOTS && t < SLOTS
    ensures SilentRun(JUST_IDLE, s, lag).idle
    ensures (exists j :: j >= 1 && ProbesAt(SilentRun(JUST_IDLE, s, lag), s, j) && ProbesAt(JUST_IDLE, t, j))
            <==> (STAGGER * (t - s) - lag) % (PROBE_WINDOW - 1) == 0
  {
    hide SilentRun, Countdown, Phase, ProbesAt;
    var g := SilentRun(JUST_IDLE, s, lag);
    CountdownPhase(JUST_IDLE, s, lag + 1);
    CollideIff(g, s, JUST_IDLE, t);
    FirstCountdown(s);
    FirstCountdown(t);
    PhaseResidue(PROBE_WINDOW - STAGGER * s, lag + 1);
    ShiftResidue(Countdown(g, s), PROBE_WINDOW - STAGGER * s - lag, PROBE_WINDOW - STAGGER * t);
  }

  lemma FirstCountdown(s: nat)
    requires s < SLOTS
    ensures Countdown(JUST_IDLE, s) == PROBE_WINDOW - STAGGER * s
  {
  }

  lemma PhaseResidue(c: nat, j: nat)
    requires c >= 1 && j >= 1
    ensures (Phase(c, j) - (c - j + 1)) % (PROBE_WINDOW - 1) == 0
  {
  }

  lemma ShiftResidue(a: int, b: int, c: int)
    requires (a - b) % (PROBE_WINDOW - 1) == 0
    ensures (a - c) % (PROBE_WINDOW - 1) == 0 <==> (b - c) % (PROBE_WINDOW - 1) == 0
  {
  }

  /** Slot 1 falling idle 43 frames after slot 0 is enough to make every probe coincide. */
  lemma StaggerDefeated()
    ensures exists j :: j >= 1 && ProbesAt(SilentRun(JUST_IDLE, 0, STAGGER), 0, j) && ProbesAt(JUST_IDLE, 1, j)
  {
    StaggerIff(0, 1, STAGGER);
  }

  // ---- Waking ----

  function LoudRun(g: Gate, s: nat, n: nat): Gate {
    if n == 0 then g else Step(LoudRun(g, s, n - 1), s, Input(true, false, [SILENCE_LEVEL + 1]))
  }

  /** A slot that starts to sound is awake again after its countdown, hence within 172
      frames, and not before; then it stays awake and is rendered every frame. */
  lemma {:induction false} LoudWakesIff(g: Gate, s: nat, n: nat)
    requires g.idle
    ensures LoudRun(g, s, n).idle <==> n < Countdown(g, s)
    ensures n < Countdown(g, s) ==> LoudRun(g, s, n).frames == g.frames + n
  {
    if n > 0 {
      LoudWakesIff(g, s, n - 1);
      var h := LoudRun(g, s, n - 1);
      assert !Silent([SILENCE_LEVEL + 1]) by { assert [SILENCE_LEVEL + 1][0] > SILENCE_LEVEL; }
      if h.idle {
        CountdownAfter(g, s, n - 1);
        CountdownStep(h, s);
      }
    }
  }

  lemma {:induction false} AnyLoudRun(g: Gate, s: nat, events: seq<Event>)
    requires forall e :: e in events ==> e.Frame? && e.input.active && !e.input.fading && !Silent(e.input.output)
    ensures History(g, s, events) == LoudRun(g, s, |events|)
    decreases |events|
  {
    if events != [] {
      AnyLoudRun(g, s, events[..|events| - 1]);
      assert events[|events| - 1] in events;
      assert !Silent([SILENCE_LEVEL + 1]) by { assert [SILENCE_LEVEL + 1][0] > SILENCE_LEVEL; }
    }
  }

  lemma CountdownAfter(g: Gate, s: nat, n: nat)
    requires n < Countdown(g, s)
    ensures Countdown(Gate(g.frames + n, true), s) == Countdown(g, s) - n
  {
    var k := g.frames + s * STAGGER;
    assert g.frames + n + s * STAGGER == k + n;
    WithinWindow(k, n);
  }

  lemma {:induction false} WithinWindow(k: nat, n: nat)
    requires k % PROBE_WINDOW + n < PROBE_WINDOW
    ensures (k + n) % PROBE_WINDOW == k % PROBE_WINDOW + n
  {
    if n > 0 {
      WithinWindow(k, n - 1);
      NextInWindow(k + n - 1);
    }
  }
}
