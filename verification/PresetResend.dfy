/** The manager's notify loop: live parameter changes go out at once, and a component whose
    preset changed gets a throttled full re-send. */
module PresetResend {
  import opened Machine

  const THROTTLE := 120        // milliseconds

  type Slot = Byte

  datatype Change = Change(slot: Slot, key: string, value: string)

  /** A component of a chain slot. */
  datatype Target = Target(slot: Slot, comp: string)

  /** The position of the last ':' in s[..n], or -1. */
  function LastColon(s: string, n: nat): (i: int)
    requires n <= |s|
    ensures -1 <= i < n && (i >= 0 ==> s[i] == ':')
    ensures forall j :: i < j < n ==> s[j] != ':'
  {
    if n == 0 then -1 else if s[n - 1] == ':' then n - 1 else LastColon(s, n - 1)
  }

  /** The component a key announces a preset of: "<comp>:preset", split at the last colon. */
  function PresetOf(key: string): Option<string> {
    var i := LastColon(key, |key|);
    if i >= 0 && key[i + 1..] == "preset" then Some(key[..i]) else None
  }

  /** Splitting at the last colon undoes joining, whatever colons the component contains. */
  lemma PresetOfJoined(comp: string)
    ensures PresetOf(comp + ":preset") == Some(comp)
  {
    var key := comp + ":preset";
    var i := LastColon(key, |key|);
    assert key[|comp|] == ':';
    assert forall j :: |comp| < j < |key| ==> key[j] != ':';
    assert i == |comp|;
    assert key[|comp| + 1..] == "preset";
  }

  const MASTER_FX := "master_fx:"

  predicate IsMasterFx(c: Change) {
    c.slot == 0 && |c.key| >= |MASTER_FX| && c.key[..|MASTER_FX|] == MASTER_FX
  }

  /** What the loop keeps between ticks for the chain slots. */
  datatype State = State(lastPreset: map<Target, string>, pending: set<Target>, lastResend: map<Slot, int>)

  /** One notification: only a preset value that differs from the last one seen counts. */
  function Note(s: State, c: Change): State {
    if IsMasterFx(c) then s
    else
      match PresetOf(c.key)
      case None => s
      case Some(comp) =>
        var t := Target(c.slot, comp);
        if t in s.lastPreset && s.lastPreset[t] == c.value then s
        else
          s.(lastPreset := s.lastPreset[t := c.value], pending := s.pending + {t})
  }

  function NoteAll(s: State, cs: seq<Change>): State
    decreases |cs|
  {
    if cs == [] then s else Note(NoteAll(s, cs[..|cs| - 1]), cs[|cs| - 1])
  }

  /** The throttle of a slot has run out; a slot never re-sent is never throttled. */
  predicate Free(s: State, slot: Slot, now: int) {
    slot in s.lastResend ==> now - s.lastResend[slot] >= THROTTLE
  }

  /** The slots a flush dispatches: something is pending and the throttle has run out. */
  function DueSlots(s: State, now: int): set<Slot> {
    set t | t in s.pending && Free(s, t.slot, now) :: t.slot
  }

  /** The pending components that a flush covers. */
  function Due(s: State, now: int): set<Target> {
    set t | t in s.pending && Free(s, t.slot, now)
  }

  function PendingFor(s: State, slot: Slot): set<Target> {
    set t | t in s.pending && t.slot == slot
  }

  function Stamp(times: map<Slot, int>, slots: set<Slot>, now: int): map<Slot, int> {
    times + map slot | slot in slots :: now
  }

  /** The flush: every due slot re-sends all that is pending for it. */
  function Flush(s: State, now: int): State {
    s.(pending := s.pending - Due(s, now), lastResend := Stamp(s.lastResend, DueSlots(s, now), now))
  }

  /** One processed tick. */
  function Tick(s: State, cs: seq<Change>, now: int): State {
    Flush(NoteAll(s, cs), now)
  }

  const START := State(map[], {}, map[])

  // ---- The loop ----

  class NotifyLoop {
    var lastPreset: map<Target, string>
    var pendingResend: set<Target>
    var lastResend: map<Slot, int>

    ghost function View(): State
      reads this
    {
      State(lastPreset, pendingResend, lastResend)
    }

    constructor ()
      ensures View() == START
    {
      lastPreset, pendingResend, lastResend := map[], {}, map[];
    }

    /** The grouping loop over one drain of the ring. */
    method NoteChanges(cs: seq<Change>)
      modifies this
      ensures View() == NoteAll(old(View()), cs)
    {
      hide PresetOf, IsMasterFx;
      for i := 0 to |cs|
        invariant View() == NoteAll(old(View()), cs[..i])
      {
        assert cs[..i + 1][..i] == cs[..i];
        var c := cs[i];
        if !IsMasterFx(c) {
          var comp := PresetOf(c.key);
          if comp.Some? {
            var t := Target(c.slot, comp.value);
            if t !in lastPreset || lastPreset[t] != c.value {
              lastPreset := lastPreset[t := c.value];
              pendingResend := pendingResend + {t};
            }
          }
        }
      }
      assert cs[..|cs|] == cs;
    }

    /** A tick: note the changes, then dispatch the due slots, in whatever order they come up.
        `sent` lists the components re-sent for each dispatched slot. */
    method ProcessTick(cs: seq<Change>, now: int) returns (sent: map<Slot, set<Target>>)
      modifies this
      ensures View() == Tick(old(View()), cs, now)
      ensures var noted := NoteAll(old(View()), cs);
              && sent.Keys == DueSlots(noted, now)
              && forall slot :: slot in sent ==> sent[slot] == PendingFor(noted, slot)
    {
      hide NoteAll, FlushSome, Flush, DispatchOne, DueSlots, FreeOf, Covered, PendingFor, SentSome, Free, Slots;
      NoteChanges(cs);
      ghost var s := View();
      sent := map[];
      var todo := Slots(pendingResend);
      ghost var done: set<Slot> := {};
      FlushNone(s, now);
      while todo != {}
        invariant todo !! done && todo + done == Slots(s.pending)
        invariant View() == FlushSome(s, done, now)
        invariant sent == SentSome(s, done, now)
        decreases todo
      {
        var slot :| slot in todo;
        todo := todo - {slot};
        FlushOneMore(s, done, slot, now);
        SentOneMore(s, done, slot, now);
        CoveredMore(s, done, slot, now);
        ResendUntouched(s, done, slot, now);
        var comps := LookAt(slot, now);
        if comps.Some? {
          sent := sent[slot := comps.value];
        }
        done := done + {slot};
      }
      assert done == Slots(s.pending);
      FlushEvery(s, now);
      SentWhole(s, done, now);
    }

    /** The loop body: re-send what is pending for the slot unless it is throttled. */
    method LookAt(slot: Slot, now: int) returns (r: Option<set<Target>>)
      modifies this
      ensures var s := old(View());
              if slot !in s.lastResend || now - s.lastResend[slot] >= THROTTLE then
                View() == DispatchOne(s, slot, now) && r == Some(PendingFor(s, slot))
              else View() == s && r == None
    {
      if slot in lastResend && now - lastResend[slot] < THROTTLE {
        return None;
      }
      var comps := set t | t in pendingResend && t.slot == slot;
      lastResend := lastResend[slot := now];
      pendingResend := pendingResend - comps;
      r := Some(comps);
    }
  }

  function Slots(pending: set<Target>): set<Slot> {
    set t | t in pending :: t.slot
  }

  function DispatchOne(s: State, slot: Slot, now: int): State {
    s.(pending := s.pending - PendingFor(s, slot), lastResend := s.lastResend[slot := now])
  }

  function Covered(s: State, done: set<Slot>, now: int): set<Target> {
    set t | t in s.pending && t.slot in done && Free(s, t.slot, now)
  }

  function FreeOf(s: State, done: set<Slot>, now: int): set<Slot> {
    set slot | slot in done && Free(s, slot, now)
  }

  /** The flush once the slots in `done` have been looked at. */
  function FlushSome(s: State, done: set<Slot>, now: int): State {
    s.(pending := s.pending - Covered(s, done, now),
       lastResend := Stamp(s.lastResend, FreeOf(s, done, now), now))
  }

  function SentSome(s: State, done: set<Slot>, now: int): map<Slot, set<Target>> {
    map slot | slot in FreeOf(s, done, now) :: PendingFor(s, slot)
  }

  lemma StampTwice(times: map<Slot, int>, a: set<Slot>, slot: Slot, now: int)
    ensures Stamp(times, a, now)[slot := now] == Stamp(times, a + {slot}, now)
    ensures Stamp(times, {}, now) == times
  {
  }

  lemma FlushNone(s: State, now: int)
    ensures FlushSome(s, {}, now) == s && SentSome(s, {}, now) == map[]
  {
    hide Free, Stamp;
    StampTwice(s.lastResend, {}, 0, now);
    assert Covered(s, {}, now) == {} && FreeOf(s, {}, now) == {};
  }

  /** Looking at one more slot covers what is pending for it if it is free, and nothing otherwise. */
  lemma CoveredMore(s: State, done: set<Slot>, slot: Slot, now: int)
    requires slot !in done
    ensures PendingFor(FlushSome(s, done, now), slot) == PendingFor(s, slot)
    ensures Covered(s, done + {slot}, now) ==
            if Free(s, slot, now) then Covered(s, done, now) + PendingFor(s, slot) else Covered(s, done, now)
    ensures FreeOf(s, done + {slot}, now) ==
            if Free(s, slot, now) then FreeOf(s, done, now) + {slot} else FreeOf(s, done, now)
  {
    hide Free;
  }

  /** The order in which slots come up does not matter: each one's dispatch is its own. */
  lemma FlushOneMore(s: State, done: set<Slot>, slot: Slot, now: int)
    requires slot !in done
    ensures var f, more := FlushSome(s, done, now), done + {slot};
            FlushSome(s, more, now) == if Free(s, slot, now) then DispatchOne(f, slot, now) else f
  {
    hide Free, Stamp, Covered, FreeOf, PendingFor;
    CoveredMore(s, done, slot, now);
    StampTwice(s.lastResend, FreeOf(s, done, now), slot, now);
  }

  lemma SentOneMore(s: State, done: set<Slot>, slot: Slot, now: int)
    requires slot !in done
    ensures var sent := SentSome(s, done, now);
            SentSome(s, done + {slot}, now) == if Free(s, slot, now) then sent[slot := PendingFor(s, slot)] else sent
  {
    hide Free, FreeOf, PendingFor;
    CoveredMore(s, done, slot, now);
  }

  lemma SentWhole(s: State, done: set<Slot>, now: int)
    ensures forall slot :: slot in SentSome(s, done, now) ==> SentSome(s, done, now)[slot] == PendingFor(s, slot)
  {
  }

  /** A dispatch does not disturb the throttle of the slots still to come. */
  lemma ResendUntouched(s: State, done: set<Slot>, slot: Slot, now: int)
    requires slot !in done
    ensures var r := FlushSome(s, done, now).lastResend;
            (slot !in r || now - r[slot] >= THROTTLE) == Free(s, slot, now)
  {
  }

  lemma FlushEvery(s: State, now: int)
    ensures FlushSome(s, Slots(s.pending), now) == Flush(s, now)
    ensures SentSome(s, Slots(s.pending), now).Keys == DueSlots(s, now)
  {
    hide Free, Stamp;
    assert Covered(s, Slots(s.pending), now) == Due(s, now);
    SlotsDue(s, now);
    assert FreeOf(s, Slots(s.pending), now) == DueSlots(s, now);
  }

  lemma SlotsDue(s: State, now: int)
    ensures forall slot :: slot in DueSlots(s, now) <==> slot in Slots(s.pending) && Free(s, slot, now)
  {
    hide Free;
  }

  // ---- Runs ----

  datatype Event = Event(changes: seq<Change>, now: int)

  function After(events: seq<Event>): State {
    if events == [] then START
    else
      var last := events[|events| - 1];
      Tick(After(events[..|events| - 1]), last.changes, last.now)
  }

  ghost predicate Monotone(events: seq<Event>) {
    forall i, j :: 0 <= i <= j < |events| ==> events[i].now <= events[j].now
  }

  /** Tick i of the run dispatches this slot. */
  predicate Dispatches(events: seq<Event>, i: nat, slot: Slot)
    requires i < |events|
  {
    slot in DueSlots(NoteAll(After(events[..i]), events[i].changes), events[i].now)
  }

  // ---- Pending, in terms of the notifications alone ----

  /** The preset value that a notification carries for t. */
  function Notified(c: Change, t: Target): Option<string> {
    if !IsMasterFx(c) && c.slot == t.slot && PresetOf(c.key) == Some(t.comp) then Some(c.value) else None
  }

  /** Which notifications concern the chain slots: a preset of any component of any slot, except
      that slot 0's keys under "master_fx:" are the master FX's, and no other key is a preset. */
  lemma NotifiedOf(slot: Slot, comp: string, value: string, t: Target)
    ensures Notified(Change(slot, comp + ":preset", value), t) ==
            if t == Target(slot, comp) && !(slot == 0 && MASTER_FX <= comp + ":preset") then Some(value) else None
  {
    PresetOfJoined(comp);
  }

  lemma OnlyPresetsNotify(c: Change, t: Target)
    ensures Notified(c, t).Some? ==> c == Change(t.slot, t.comp + ":preset", Notified(c, t).value)
  {
    var i := LastColon(c.key, |c.key|);
    if Notified(c, t).Some? {
      assert c.key == c.key[..i] + [c.key[i]] + c.key[i + 1..];
      assert [c.key[i]] + "preset" == ":preset";
    }
  }

  lemma MasterFxIsApart(rest: string, value: string, t: Target)
    ensures Notified(Change(0, "master_fx:" + rest, value), t) == None
  {
    assert ("master_fx:" + rest)[..|MASTER_FX|] == MASTER_FX;
  }

  /** The last preset value notified for t. */
  function LastNotified(cs: seq<Change>, t: Target): Option<string> {
    if cs == [] then None
    else
      var last := Notified(cs[|cs| - 1], t);
      if last.Some? then last else LastNotified(cs[..|cs| - 1], t)
  }

  /** Every notification of the run, oldest first. */
  function Stream(events: seq<Event>): seq<Change> {
    if events == [] then [] else Stream(events[..|events| - 1]) + events[|events| - 1].changes
  }

  /** Notification j of cs, after those in `before`, carries a new preset value for t. */
  predicate NewAt(before: seq<Change>, cs: seq<Change>, j: nat, t: Target)
    requires j < |cs|
  {
    Notified(cs[j], t).Some? && Notified(cs[j], t) != LastNotified(before + cs[..j], t)
  }

  predicate SomeNew(before: seq<Change>, cs: seq<Change>, t: Target) {
    exists j :: 0 <= j < |cs| && NewAt(before, cs, j, t)
  }

  /** In tick i some notification carries a preset value of t that differs from the one notified
      for t just before, or is the first. */
  predicate ChangesIn(events: seq<Event>, i: nat, t: Target)
    requires i < |events|
  {
    SomeNew(Stream(events[..i]), events[i].changes, t)
  }

  /** The preset of t changed in tick i, and its slot has not been dispatched since. */
  predicate Outstanding(events: seq<Event>, i: nat, t: Target)
    requires i < |events|
  {
    ChangesIn(events, i, t) && forall j :: i <= j < |events| ==> !Dispatches(events, j, t.slot)
  }

  function ValueOf(m: map<Target, string>, t: Target): Option<string> {
    if t in m then Some(m[t]) else None
  }

  /** What one notification does for one component. */
  lemma NoteFor(s: State, c: Change, t: Target)
    ensures var r, v := Note(s, c), Notified(c, t);
            && ValueOf(r.lastPreset, t) == (if v.Some? then v else ValueOf(s.lastPreset, t))
            && (t in r.pending <==> t in s.pending || (v.Some? && v != ValueOf(s.lastPreset, t)))
            && r.lastResend == s.lastResend
  {
    hide PresetOf, IsMasterFx;
  }

  lemma LastNotifiedMore(cs: seq<Change>, c: Change, t: Target)
    ensures LastNotified(cs + [c], t) == if Notified(c, t).Some? then Notified(c, t) else LastNotified(cs, t)
  {
    assert (cs + [c])[..|cs|] == cs;
  }

  lemma SomeNewMore(before: seq<Change>, cs: seq<Change>, t: Target)
    requires cs != []
    ensures var n := |cs| - 1;
            SomeNew(before, cs, t) <==> SomeNew(before, cs[..n], t) || NewAt(before, cs, n, t)
  {
    hide Notified, LastNotified;
    var n := |cs| - 1;
    forall j | 0 <= j < n
      ensures NewAt(before, cs, j, t) <==> NewAt(before, cs[..n], j, t)
    {
      assert cs[..n][..j] == cs[..j];
    }
    if SomeNew(before, cs[..n], t) {
      var j :| 0 <= j < n && NewAt(before, cs[..n], j, t);
      assert NewAt(before, cs, j, t);
    }
  }

  /** What the notifications of one tick do for one component. */
  lemma {:induction false} NoteMany(s: State, before: seq<Change>, cs: seq<Change>, t: Target)
    requires ValueOf(s.lastPreset, t) == LastNotified(before, t)
    ensures var r := NoteAll(s, cs);
            && ValueOf(r.lastPreset, t) == LastNotified(before + cs, t)
            && (t in r.pending <==> t in s.pending || SomeNew(before, cs, t))
    decreases |cs|
  {
    hide Note, Notified, LastNotified, ValueOf, SomeNew;
    if cs == [] {
      assert before + cs == before;
      NothingNew(before, t);
    } else {
      var n := |cs| - 1;
      NoteMany(s, before, cs[..n], t);
      NoteFor(NoteAll(s, cs[..n]), cs[n], t);
      LastNotifiedMore(before + cs[..n], cs[n], t);
      assert before + cs == before + cs[..n] + [cs[n]];
      SomeNewMore(before, cs, t);
    }
  }

  lemma NothingNew(before: seq<Change>, t: Target)
    ensures !SomeNew(before, [], t)
  {
  }

  /** A flush takes t off exactly if it dispatches t's slot. */
  lemma FlushFor(s: State, now: int, t: Target)
    ensures var r := Flush(s, now);
            && r.lastPreset == s.lastPreset
            && (t in r.pending <==> t in s.pending && t.slot !in DueSlots(s, now))
  {
    hide Stamp;
  }

  lemma OutstandingMore(events: seq<Event>, i: nat, t: Target)
    requires i < |events| - 1
    ensures var n := |events| - 1;
            Outstanding(events, i, t) <==> Outstanding(events[..n], i, t) && !Dispatches(events, n, t.slot)
  {
    hide SomeNew, DueSlots;
    var n := |events| - 1;
    var earlier := events[..n];
    assert earlier[..i] == events[..i];
    forall j | i <= j < n
      ensures Dispatches(earlier, j, t.slot) <==> Dispatches(events, j, t.slot)
    {
      assert earlier[..j] == events[..j];
    }
  }

  /** No preset change is lost and no re-send is spurious: after any run, a component is pending
      if and only if some notification carried a preset value differing from the one notified for
      it just before, in a tick since which its slot has not been dispatched. And the value it is
      compared with next is the last one notified. */
  lemma {:induction false} NothingLostNothingSpurious(events: seq<Event>, t: Target)
    ensures t in After(events).pending <==> exists i :: 0 <= i < |events| && Outstanding(events, i, t)
    ensures ValueOf(After(events).lastPreset, t) == LastNotified(Stream(events), t)
    decreases |events|
  {
    hide SomeNew, ValueOf, Flush, NoteAll, DueSlots, Outstanding, LastNotified;
    if events == [] {
      StartFor(t);
    } else {
      var n := |events| - 1;
      var earlier := events[..n];
      NothingLostNothingSpurious(earlier, t);
      var noted := NoteAll(After(earlier), events[n].changes);
      NoteMany(After(earlier), Stream(earlier), events[n].changes, t);
      FlushFor(noted, events[n].now, t);
      OutstandingLast(events, t);
      forall i | 0 <= i < n
        ensures Outstanding(events, i, t) <==> Outstanding(earlier, i, t) && !Dispatches(events, n, t.slot)
      {
        OutstandingMore(events, i, t);
      }
    }
  }

  lemma OutstandingLast(events: seq<Event>, t: Target)
    requires events != []
    ensures var n := |events| - 1;
            Outstanding(events, n, t) <==> ChangesIn(events, n, t) && !Dispatches(events, n, t.slot)
  {
    hide ChangesIn, Dispatches;
  }

  lemma StartFor(t: Target)
    ensures t !in After([]).pending && ValueOf(After([]).lastPreset, t) == LastNotified(Stream([]), t)
  {
  }

  /** After a tick, whatever is still pending waits for a re-send less than 120 ms ago. */
  lemma PendingOnlyWhileThrottled(s: State, cs: seq<Change>, now: int, t: Target)
    requires t in Tick(s, cs, now).pending
    ensures var r := Tick(s, cs, now); t.slot in r.lastResend && now - r.lastResend[t.slot] < THROTTLE
  {
  }

  lemma {:induction false} ResendTimes(events: seq<Event>, i: nat, slot: Slot)
    requires Monotone(events) && i < |events| && Dispatches(events, i, slot)
    ensures slot in After(events).lastResend && After(events).lastResend[slot] >= events[i].now
    decreases |events|
  {
    hide NoteAll;
    var n := |events| - 1;
    var earlier := events[..n];
    var s := After(earlier);
    NoteAllKeepsTimes(s, events[n].changes);
    if i < n {
      assert earlier[..i] == events[..i];
      ResendTimes(earlier, i, slot);
      assert events[i].now <= events[n].now;
    }
  }

  lemma {:induction false} NoteAllKeepsTimes(s: State, cs: seq<Change>)
    ensures NoteAll(s, cs).lastResend == s.lastResend
    decreases |cs|
  {
    hide PresetOf, IsMasterFx;
    if cs != [] {
      NoteAllKeepsTimes(s, cs[..|cs| - 1]);
    }
  }

  /** Two dispatches for one slot are at least 120 ms apart, over every run. */
  lemma DispatchesSpaced(events: seq<Event>, i: nat, j: nat, slot: Slot)
    requires Monotone(events) && i < j < |events| && Dispatches(events, i, slot) && Dispatches(events, j, slot)
    ensures events[j].now - events[i].now >= THROTTLE
  {
    hide NoteAll;
    var earlier := events[..j];
    assert earlier[..i] == events[..i];
    ResendTimes(earlier, i, slot);
    NoteAllKeepsTimes(After(earlier), events[j].changes);
  }

  /** A change that finds its slot unthrottled is dispatched in the very tick that brings it. */
  lemma LeadingEdge(s: State, cs: seq<Change>, now: int, t: Target)
    requires t in NoteAll(s, cs).pending && Free(s, t.slot, now)
    ensures t.slot in DueSlots(NoteAll(s, cs), now) && t !in Tick(s, cs, now).pending
  {
    NoteAllKeepsTimes(s, cs);
  }
}
