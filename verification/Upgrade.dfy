/** The on-device upgrade as a machine over its file steps. Any step may fail, a crash may cut
    in anywhere, and the helper may run at any boot. The data-partition shim is overwritten in
    place, so a cut extraction may leave any bytes there. */
module Upgrade {
  import opened Machine

  /** What a catalog entry's tarball holds, as far as the gate is concerned. */
  datatype Release = Release(version: string, shim: Bytes, entry: Bytes)

  /** How far the upgrade goroutine has come. */
  datatype Pc =
    | Idle
    | Extracting(target: Release)
    | Mirroring(target: Release)
    | Verifying(target: Release)
    | Stamping(target: Release)

  /** `version` is the trimmed text of host/version.txt. `lastTarget` is history: the target of
      the last attempt that got past the version comparison. */
  datatype Device = Device(
    dataShim: Bytes,
    libShim: Option<Bytes>,
    dataEntry: Bytes,
    sysEntry: Option<Bytes>,
    version: string,
    pc: Pc,
    lastTarget: Option<Release>)

  datatype Event =
    | Begin(target: Release)
    | Extract(ok: bool, shim: Bytes, entry: Bytes)        // what a failed extraction leaves
    | PostUpdate(lib: Option<Bytes>, sys: Option<Bytes>) // what the script leaves on the system partition
    | HealMirror(shimCopied: bool, entryCopied: bool)
    | Verify(readable: bool)
    | Stamp(ok: bool, text: string)                       // what a failed placement leaves
    | Crash(shim: Bytes, entry: Bytes, text: string, shimCopied: bool, entryCopied: bool)
    | BootHeal(shimCopied: bool, entryCopied: bool)

  /** The version comparison at the head of the request handler. */
  predicate UpToDate(d: Device, target: Release) {
    target.version != "" && target.version == d.version
  }

  /** filesIdentical on the two shims; an unreadable file is never confirmed. */
  predicate ShimsIdentical(d: Device, readable: bool) {
    readable && d.libShim == Some(d.dataShim)
  }

  /** The helper copies each file atomically or not at all. */
  function Healed(d: Device, shimCopied: bool, entryCopied: bool): Device {
    d.(libShim := if shimCopied then Some(d.dataShim) else d.libShim,
       sysEntry := if entryCopied then Some(d.dataEntry) else d.sysEntry)
  }

  /** One step; an event that does not fit the program counter does nothing. */
  function Next(d: Device, e: Event): Device {
    match e
    case Begin(target) =>
      if d.pc.Idle? && !UpToDate(d, target) then d.(pc := Extracting(target), lastTarget := Some(target)) else d
    case Extract(ok, shim, entry) =>
      if !d.pc.Extracting? then d
      else if ok then d.(dataShim := d.pc.target.shim, dataEntry := d.pc.target.entry, pc := Mirroring(d.pc.target))
      else d.(dataShim := shim, dataEntry := entry, pc := Idle)
    case PostUpdate(lib, sys) => if d.pc.Mirroring? then d.(libShim := lib, sysEntry := sys) else d
    case HealMirror(shimCopied, entryCopied) =>
      if d.pc.Mirroring? then Healed(d, shimCopied, entryCopied).(pc := Verifying(d.pc.target)) else d
    case Verify(readable) =>
      if !d.pc.Verifying? then d
      else if ShimsIdentical(d, readable) then d.(pc := Stamping(d.pc.target))
      else d.(pc := Idle)
    case Stamp(ok, text) =>
      if d.pc.Stamping? then d.(version := if ok then d.pc.target.version else text, pc := Idle) else d
    case Crash(shim, entry, text, shimCopied, entryCopied) =>
      (match d.pc
       case Idle => d
       case Extracting(_) => d.(dataShim := shim, dataEntry := entry, pc := Idle)
       case Mirroring(_) => Healed(d, shimCopied, entryCopied).(pc := Idle)
       case Verifying(_) => d.(pc := Idle)
       case Stamping(_) => d.(version := text, pc := Idle))
    case BootHeal(shimCopied, entryCopied) =>
      if d.pc.Idle? then Healed(d, shimCopied, entryCopied) else d
  }

  function Run(d: Device, events: seq<Event>): Device
    decreases |events|
  {
    if events == [] then d else Run(Next(d, events[0]), events[1..])
  }

  /** Both copies of the shim are those of release r. */
  predicate Live(d: Device, r: Release) {
    d.dataShim == r.shim && d.libShim == Some(r.shim)
  }

  /** What every step keeps. */
  ghost predicate Inv(d: Device) {
    && (d.lastTarget.Some? && d.version == d.lastTarget.value.version && d.version != "" ==>
          Live(d, d.lastTarget.value))
    && (!d.pc.Idle? ==> d.lastTarget == Some(d.pc.target))
    && (d.pc.Extracting? || d.pc.Mirroring? || d.pc.Verifying? ==> !UpToDate(d, d.pc.target))
    && (d.pc.Mirroring? || d.pc.Verifying? ==> d.dataShim == d.pc.target.shim)
    && (d.pc.Stamping? ==> Live(d, d.pc.target))
  }

  lemma StepKeepsInv(d: Device, e: Event)
    requires Inv(d)
    ensures Inv(Next(d, e))
  {
  }

  lemma {:induction false} RunKeepsInv(d: Device, events: seq<Event>)
    requires Inv(d)
    ensures Inv(Run(d, events))
    decreases |events|
  {
    if events != [] {
      StepKeepsInv(d, events[0]);
      RunKeepsInv(Next(d, events[0]), events[1..]);
    }
  }

  // ---- Main results ----

  /** A device as installed: idle, and no attempt made yet. */
  predicate Fresh(d: Device) {
    d.pc.Idle? && d.lastTarget.None?
  }

  /** Through any sequence of attempts at any targets, failures, crashes and boots: if
      version.txt names the target of the latest attempt, both copies of the shim are that
      release's. */
  lemma StampedMeansLive(d: Device, events: seq<Event>)
    requires Fresh(d)
    ensures var r := Run(d, events);
            r.lastTarget.Some? && r.version == r.lastTarget.value.version && r.version != "" ==>
              Live(r, r.lastTarget.value)
  {
    RunKeepsInv(d, events);
  }

  /** Every attempt in the run is at a release of the set. */
  predicate TargetsIn(events: seq<Event>, offered: iset<Release>) {
    forall e :: e in events && e.Begin? ==> e.target in offered
  }

  /** Every attempt in the run is at release t. */
  predicate OnlyTargets(events: seq<Event>, t: Release) {
    TargetsIn(events, iset{t})
  }

  lemma {:induction false} TargetStays(d: Device, events: seq<Event>, t: Release)
    requires OnlyTargets(events, t) && (d.lastTarget.Some? ==> d.lastTarget == Some(t))
    ensures var r := Run(d, events); r.lastTarget.Some? ==> r.lastTarget == Some(t)
    decreases |events|
  {
    if events != [] {
      assert events[0] in events;
      assert forall e :: e in events[1..] ==> e in events;
      TargetStays(Next(d, events[0]), events[1..], t);
    }
  }

  /** While the catalog offers one release t, version.txt == t implies the live shim is t's --
      given that this holds of the device the run starts from. */
  lemma FixedTargetIsSafe(d: Device, events: seq<Event>, t: Release)
    requires Fresh(d) && OnlyTargets(events, t) && t.version != ""
    requires d.version == t.version ==> Live(d, t)
    ensures var r := Run(d, events); r.version == t.version ==> Live(r, t)
  {
    if d.version == t.version {
      UpToDateNeverBegins(d, events, iset{t}, t);
    } else {
      var r := Run(d, events);
      RunKeepsInv(d, events);
      TargetStays(d, events, t);
      if r.lastTarget.None? {
        NothingBegunNothingStamped(d, events);
      }
    }
  }

  /** If the device is up to date with everything on offer, no attempt gets past the comparison. */
  lemma {:induction false} UpToDateNeverBegins(d: Device, events: seq<Event>, offered: iset<Release>, a: Release)
    requires d.pc.Idle? && TargetsIn(events, offered) && Live(d, a)
    requires forall b :: b in offered ==> UpToDate(d, b)
    ensures var r := Run(d, events); r.pc.Idle? && r.version == d.version && Live(r, a)
    decreases |events|
  {
    if events != [] {
      assert events[0] in events;
      assert forall e :: e in events[1..] ==> e in events;
      UpToDateNeverBegins(Next(d, events[0]), events[1..], offered, a);
    }
  }

  lemma {:induction false} NothingBegunNothingStamped(d: Device, events: seq<Event>)
    requires d.pc.Idle?
    ensures var r := Run(d, events); r.lastTarget.None? ==> r.version == d.version && r.pc.Idle?
    decreases |events|
  {
    if events != [] {
      var n := Next(d, events[0]);
      if n.pc.Idle? {
        NothingBegunNothingStamped(n, events[1..]);
      } else {
        TargetNeverForgotten(n, events[1..]);
      }
    }
  }

  lemma {:induction false} TargetNeverForgotten(d: Device, events: seq<Event>)
    requires d.lastTarget.Some?
    ensures Run(d, events).lastTarget.Some?
    decreases |events|
  {
    if events != [] {
      TargetNeverForgotten(Next(d, events[0]), events[1..]);
    }
  }

  /** version.txt changes in one place only, and there the live shim is the target's. */
  lemma StampedOnlyWhenLive(d: Device, e: Event)
    requires Inv(d) && Next(d, e).version != d.version
    ensures d.pc.Stamping? && Live(d, d.pc.target) && Live(Next(d, e), d.pc.target)
  {
  }

  /** Until the version is reached an attempt is never short-circuited, and from any state that
      any run leaves idle one failure-free attempt with a working helper reaches it, whatever
      post-update.sh does to the system partition before the helper runs. */
  lemma OneGoodAttemptSuffices(d: Device, t: Release, lib: Option<Bytes>, sys: Option<Bytes>)
    requires d.pc.Idle? && d.version != t.version
    ensures var attempt := [Begin(t), Extract(true, [], []), PostUpdate(lib, sys), HealMirror(true, true),
                            Verify(true), Stamp(true, "")];
            var r := Run(d, attempt);
            r.pc.Idle? && r.version == t.version && Live(r, t) && r.sysEntry == Some(t.entry)
  {
    var attempt := [Begin(t), Extract(true, [], []), PostUpdate(lib, sys), HealMirror(true, true),
                    Verify(true), Stamp(true, "")];
    var d1 := Next(d, attempt[0]);
    assert Run(d, attempt) == Run(d1, attempt[1..]);
    RunFive(d1, attempt[1..]);
    var d3 := Next(Next(d1, attempt[1]), attempt[2]);
    assert d3.pc.Mirroring? && d3.dataShim == t.shim && d3.dataEntry == t.entry;
    var d5 := Next(Next(d3, attempt[3]), attempt[4]);
    assert d5.pc.Stamping?;
  }

  lemma RunFive(d: Device, es: seq<Event>)
    requires |es| == 5
    ensures Run(d, es) == Next(Next(Next(Next(Next(d, es[0]), es[1]), es[2]), es[3]), es[4])
  {
    hide Next;
    assert es[1..][1..] == es[2..] && es[2..][1..] == es[3..] && es[3..][1..] == es[4..] && es[4..][1..] == [];
    var d1 := Next(d, es[0]);
    assert Run(d, es) == Run(d1, es[1..]);
    var d2 := Next(d1, es[1]);
    assert Run(d1, es[1..]) == Run(d2, es[2..]);
    var d3 := Next(d2, es[2]);
    assert Run(d2, es[2..]) == Run(d3, es[3..]);
    var d4 := Next(d3, es[3]);
    assert Run(d3, es[3..]) == Run(d4, es[4..]);
    assert Run(d4, es[4..]) == Run(Next(d4, es[4]), []);
  }

  lemma RunThree(d: Device, es: seq<Event>)
    requires |es| == 3
    ensures Run(d, es) == Next(Next(Next(d, es[0]), es[1]), es[2])
  {
    hide Next;
    assert es[1..][1..] == es[2..] && es[2..][1..] == [];
    var d1 := Next(d, es[0]);
    var d2 := Next(d1, es[1]);
    assert Run(d1, es[1..]) == Run(d2, es[2..]) == Run(Next(d2, es[2]), []);
  }

  // ---- Where the guarantee ends ----

  /** An attempt at any release b the device is not up to date with, cut short in its
      extraction, followed by a boot: the old version is named, and whatever bytes the cut left
      are live. */
  lemma CutAttemptHidesMismatch(d: Device, b: Release, junk: Bytes)
    requires d.pc.Idle? && !UpToDate(d, b)
    ensures var r := Run(d, [Begin(b), Extract(false, junk, []), BootHeal(true, true)]);
            r.pc.Idle? && r.version == d.version && r.dataShim == junk && r.libShim == Some(junk)
  {
    RunThree(d, [Begin(b), Extract(false, junk, []), BootHeal(true, true)]);
  }

  /** How steady the catalog has to be, exactly: version.txt == a.version implies that a's shim is
      live after every run, given that it does at the start, if and only if the device is up to
      date with every release the catalog offers. One release more, and an attempt at it that is
      cut short breaks the implication; the catalog need not change back. */
  lemma SafeIffNothingElseOffered(d: Device, a: Release, offered: iset<Release>)
    requires Fresh(d) && d.version == a.version && Live(d, a)
    ensures (forall events | TargetsIn(events, offered) ::
               Run(d, events).version == a.version ==> Live(Run(d, events), a))
            <==> (forall b :: b in offered ==> UpToDate(d, b))
  {
    if b :| b in offered && !UpToDate(d, b) {
      var junk := a.shim + [0];
      var events := [Begin(b), Extract(false, junk, []), BootHeal(true, true)];
      CutAttemptHidesMismatch(d, b, junk);
      assert TargetsIn(events, offered) && !Live(Run(d, events), a);
    } else {
      forall events | TargetsIn(events, offered)
        ensures Run(d, events).version == a.version ==> Live(Run(d, events), a)
      {
        UpToDateNeverBegins(d, events, offered, a);
      }
    }
  }

  /** Once the catalog is back at the version named, a mismatch stays for good: every attempt is
      answered "already up to date", and every boot mirrors the wrong shim again. */
  lemma {:induction false} MismatchIsPermanent(d: Device, events: seq<Event>, a: Release)
    requires d.pc.Idle? && UpToDate(d, a) && d.dataShim != a.shim && d.libShim != Some(a.shim)
    requires OnlyTargets(events, a)
    ensures var r := Run(d, events);
            r.pc.Idle? && UpToDate(r, a) && r.dataShim == d.dataShim && r.libShim != Some(a.shim)
    decreases |events|
  {
    if events != [] {
      assert events[0] in events;
      assert forall e :: e in events[1..] ==> e in events;
      MismatchIsPermanent(Next(d, events[0]), events[1..], a);
    }
  }

  /** The gate looks at the shim only: version.txt can advance over a stale entrypoint, which
      is then left to the next boot's helper. */
  lemma EntrypointNotGated(d: Device, t: Release)
    requires d.pc.Idle? && d.version != t.version && d.sysEntry != Some(t.entry)
    ensures var r := Run(d, [Begin(t), Extract(true, [], []), HealMirror(true, false), Verify(true), Stamp(true, "")]);
            r.version == t.version && Live(r, t) && r.sysEntry != Some(t.entry)
            && Next(r, BootHeal(true, true)).sysEntry == Some(t.entry)
  {
    RunFive(d, [Begin(t), Extract(true, [], []), HealMirror(true, false), Verify(true), Stamp(true, "")]);
  }
}
