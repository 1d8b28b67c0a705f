/** The manager's rev-gated polling of an overtake tool: a cheap digest decides whether the
    full state is fetched, and the device may be edited between the two reads. */
module RevGate {
  import opened Machine

  /** The poll digest "rev:on:tick:bpm", once parsed. */
  datatype Digest = Digest(rev: int, on: bool, tick: int, bpm: int)

  /** What TryGetParam gives: the channel was busy, there was no usable digest, or a digest. */
  datatype DigestRead = Busy | Unusable | Read(digest: Digest)

  /** What a full fetch gives; `gen` stands for the state it carries. */
  datatype Fetch = Missed | Hit(gen: nat)

  datatype Message = Snapshot(gen: nat) | Playhead(on: bool, tick: int, bpm: int)

  /** The per-client fields. `shown` is history: the state in the last snapshot sent. */
  datatype Client = Client(sub: bool, synced: bool, lastRev: int, lastTick: int, shown: Option<nat>)

  datatype Reply = Reply(client: Client, message: Option<Message>)

  /** Would this digest lead to a full fetch? */
  predicate NeedsFetch(c: Client, read: DigestRead) {
    c.sub && (read.Unusable? || (read.Read? && (!c.synced || read.digest.rev != c.lastRev)))
  }

  function Refetch(c: Client, read: DigestRead, fetch: Fetch): Reply {
    if !c.sub || read.Busy? then Reply(c, None)
    else if NeedsFetch(c, read) then
      if fetch.Missed? then Reply(c, None)
      else
        var shown := c.(shown := Some(fetch.gen));
        Reply(if read.Unusable? then shown
              else shown.(synced := true, lastRev := read.digest.rev, lastTick := read.digest.tick),
              Some(Snapshot(fetch.gen)))
    else if read.digest.on && read.digest.tick != c.lastTick then
      Reply(c.(lastTick := read.digest.tick), Some(Playhead(true, read.digest.tick, read.digest.bpm)))
    else Reply(c, None)
  }

  function Subscribe(c: Client, fetch: Fetch): Reply {
    var renewed := c.(sub := true, synced := false);
    if fetch.Missed? then Reply(renewed, None)
    else Reply(renewed.(shown := Some(fetch.gen)), Some(Snapshot(fetch.gen)))
  }

  class ToolClient {
    var toolSub: bool
    var toolSynced: bool
    var toolLastRev: int
    var toolLastTick: int
    ghost var shown: Option<nat>

    ghost function View(): Client
      reads this
    {
      Client(toolSub, toolSynced, toolLastRev, toolLastTick, shown)
    }

    constructor ()
      ensures View() == Client(false, false, 0, 0, None)
    {
      toolSub, toolSynced, toolLastRev, toolLastTick, shown := false, false, 0, 0, None;
    }

    /** handleRefetchTool; `fetch` is what a full fetch would give if one is made. */
    method HandleRefetch(read: DigestRead, fetch: Fetch) returns (message: Option<Message>)
      modifies this
      ensures Reply(View(), message) == Refetch(old(View()), read, fetch)
    {
      if !toolSub {
        return None;
      }
      match read
      case Busy => return None;
      case Unusable =>
        if fetch.Hit? {
          shown := Some(fetch.gen);
          return Some(Snapshot(fetch.gen));
        }
        return None;
      case Read(d) =>
        if !toolSynced || d.rev != toolLastRev {
          if fetch.Hit? {
            shown := Some(fetch.gen);
            toolSynced := true;
            toolLastRev := d.rev;
            toolLastTick := d.tick;
            return Some(Snapshot(fetch.gen));
          }
          return None;
        }
        if d.on && d.tick != toolLastTick {
          toolLastTick := d.tick;
          return Some(Playhead(true, d.tick, d.bpm));
        }
        return None;
    }

    /** handleSubscribeTool: the next poll must fetch, and the tool is seeded at once if it can be. */
    method HandleSubscribe(fetch: Fetch) returns (message: Option<Message>)
      modifies this
      ensures Reply(View(), message) == Subscribe(old(View()), fetch)
    {
      toolSub := true;
      toolSynced := false;
      message := None;
      if fetch.Hit? {
        shown := Some(fetch.gen);
        message := Some(Snapshot(fetch.gen));
      }
    }

    method HandleUnsubscribe()
      modifies this
      ensures View() == old(View()).(sub := false, synced := false)
    {
      toolSub := false;
      toolSynced := false;
    }
  }

  // ---- The client against a device that is being edited ----

  /** The device's history: state g has revision revs[g]; the last one is current. */
  datatype World = World(revs: seq<int>, client: Client)

  /** In a poll the digest is read first, then the device may be edited any number of times,
      then the state is fetched. */
  datatype Event =
    | Edit(rev: int)
    | Poll(usable: bool, busy: bool, on: bool, tick: int, bpm: int, between: seq<int>, hit: bool)
    | Sub(hit: bool)
    | Unsub

  function DigestOf(w: World, e: Event): DigestRead
    requires w.revs != [] && e.Poll?
  {
    if e.busy then Busy
    else if !e.usable then Unusable
    else Read(Digest(w.revs[|w.revs| - 1], e.on, e.tick, e.bpm))
  }

  /** What the manager does on an event: the client's new fields, and the message sent to it. */
  function Reaction(w: World, e: Event): Reply
    requires w.revs != []
  {
    match e
    case Edit(_) => Reply(w.client, None)
    case Poll(_, _, _, _, _, between, hit) =>
      Refetch(w.client, DigestOf(w, e), if hit then Hit(|w.revs + between| - 1) else Missed)
    case Sub(hit) => Subscribe(w.client, if hit then Hit(|w.revs| - 1) else Missed)
    case Unsub => Reply(w.client.(sub := false, synced := false), None)
  }

  function Next(w: World, e: Event): (r: World)
    requires w.revs != []
    ensures r.revs != []
  {
    var more := match e case Edit(rev) => [rev] case Poll(_, _, _, _, _, between, _) => between case _ => [];
    World(w.revs + more, Reaction(w, e).client)
  }

  function Run(w: World, events: seq<Event>): (r: World)
    requires w.revs != []
    ensures r.revs != []
    decreases |events|
  {
    if events == [] then w else Run(Next(w, events[0]), events[1..])
  }

  // ---- What the client has, by its messages alone ----

  /** The messages sent to the client over the run. */
  function Sent(w: World, events: seq<Event>): seq<Message>
    requires w.revs != []
    decreases |events|
  {
    if events == [] then []
    else
      var message := Reaction(w, events[0]).message;
      (if message.Some? then [message.value] else []) + Sent(Next(w, events[0]), events[1..])
  }

  /** The state in the last snapshot among them. */
  function LastGen(messages: seq<Message>): Option<nat> {
    if messages == [] then None
    else
      var last := messages[|messages| - 1];
      if last.Snapshot? then Some(last.gen) else LastGen(messages[..|messages| - 1])
  }

  lemma {:induction false} LastGenAppend(a: seq<Message>, b: seq<Message>)
    ensures LastGen(a + b) == if LastGen(b).Some? then LastGen(b) else LastGen(a)
    decreases |b|
  {
    if b == [] {
      assert a + b == a;
    } else {
      var n := |b| - 1;
      assert (a + b)[..|a + b| - 1] == a + b[..n];
      LastGenAppend(a, b[..n]);
    }
  }

  lemma ReactionShows(w: World, e: Event)
    requires w.revs != []
    ensures var r := Reaction(w, e);
            r.client.shown == if r.message.Some? && r.message.value.Snapshot? then Some(r.message.value.gen)
                              else w.client.shown
  {
  }

  /** The history field is what the messages say. */
  lemma {:induction false} ShownIsSent(w: World, events: seq<Event>)
    requires w.revs != []
    ensures var last := LastGen(Sent(w, events));
            Run(w, events).client.shown == if last.Some? then last else w.client.shown
    decreases |events|
  {
    hide Reaction, LastGen;
    if events == [] {
      NothingSent();
    } else {
      var message := Reaction(w, events[0]).message;
      var first := if message.Some? then [message.value] else [];
      ReactionShows(w, events[0]);
      ShownIsSent(Next(w, events[0]), events[1..]);
      LastGenAppend(first, Sent(Next(w, events[0]), events[1..]));
      NothingSent();
      if message.Some? {
        OneSent(message.value);
      }
    }
  }

  lemma NothingSent()
    ensures LastGen([]) == None
  {
  }

  lemma OneSent(m: Message)
    ensures LastGen([m]) == if m.Snapshot? then Some(m.gen) else None
  {
    assert [m][..0] == [];
  }

  lemma {:induction false} RunOneMore(w: World, events: seq<Event>, e: Event)
    requires w.revs != []
    ensures Run(w, events + [e]) == Next(Run(w, events), e)
    decreases |events|
  {
    hide Next;
    if events == [] {
      assert events + [e] == [e] && [e][1..] == [];
      assert Run(w, [e]) == Run(Next(w, e), []);
    } else {
      assert (events + [e])[1..] == events[1..] + [e];
      RunOneMore(Next(w, events[0]), events[1..], e);
    }
  }

  /** What the client has after the run and one more event: the state in the last snapshot sent. */
  function Has(w: World, events: seq<Event>, e: Event): Option<nat>
    requires w.revs != []
  {
    LastGen(Sent(w, events + [e]))
  }

  lemma HasIsShown(w: World, events: seq<Event>, e: Event)
    requires w.revs != [] && w.client == NOBODY
    ensures Has(w, events, e) == Next(Run(w, events), e).client.shown
  {
    hide Next, Sent, LastGen, Run;
    ShownIsSent(w, events + [e]);
    RunOneMore(w, events, e);
  }

  /** No two states share a revision. A counter that rises with every edit is one way to that. */
  ghost predicate Distinct(revs: seq<int>) {
    forall i, j :: 0 <= i < j < |revs| ==> revs[i] != revs[j]
  }

  /** A synced client has been shown a state at least as new as the revision it remembers. */
  ghost predicate Inv(w: World) {
    && w.revs != []
    && (w.client.shown.Some? ==> w.client.shown.value < |w.revs|)
    && (w.client.synced ==>
          w.client.shown.Some? && exists g :: 0 <= g <= w.client.shown.value && w.revs[g] == w.client.lastRev)
  }

  lemma NextKeepsInv(w: World, e: Event)
    requires Inv(w)
    ensures Inv(Next(w, e))
  {
    var r := Next(w, e);
    if w.client.synced {
      var g :| 0 <= g <= w.client.shown.value && w.revs[g] == w.client.lastRev;
      assert r.revs[g] == w.revs[g];
    }
    if e.Poll? && !e.busy && e.usable {
      var last := |w.revs| - 1;
      assert r.revs[last] == w.revs[last];
    }
  }

  lemma {:induction false} RunKeepsInv(w: World, events: seq<Event>)
    requires Inv(w)
    ensures Inv(Run(w, events))
    decreases |events|
  {
    hide Inv, Next;
    assert w.revs != [] by { InvHasState(w); }
    if events != [] {
      NextKeepsInv(w, events[0]);
      RunKeepsInv(Next(w, events[0]), events[1..]);
    }
  }

  lemma InvHasState(w: World)
    requires Inv(w)
    ensures w.revs != []
  {
  }

  const NOBODY := Client(false, false, 0, 0, None)

  /** A poll that reads a digest and, if it fetches at all, fetches successfully. */
  predicate GoodPoll(w: World, e: Event)
    requires w.revs != []
  {
    && e.Poll? && w.client.sub && !e.busy && e.usable
    && (NeedsFetch(w.client, DigestOf(w, e)) ==> e.hit)
  }

  /** After this poll the last snapshot sent is at least as new as the state whose revision the
      poll read. */
  ghost predicate Fresh(w: World, events: seq<Event>, e: Event)
    requires w.revs != []
  {
    var before := Run(w, events);
    var has := Has(w, events, e);
    has.Some? && |before.revs| - 1 <= has.value < |Next(before, e).revs|
  }

  /** With distinct revisions every good poll of every run is fresh, even when edits fall between
      digest and fetch. */
  lemma PollIsFresh(w: World, events: seq<Event>, e: Event)
    requires w.revs != [] && w.client == NOBODY && GoodPoll(Run(w, events), e)
    requires Distinct(Run(w, events).revs)
    ensures Fresh(w, events, e)
  {
    hide Run, Has;
    RunKeepsInv(w, events);
    HasIsShown(w, events, e);
    var before := Run(w, events);
    if !NeedsFetch(before.client, DigestOf(before, e)) && before.client.shown.value < |before.revs| - 1 {
      StaleMeansRepeated(before, e);
    }
  }

  /** When no edit falls inside the poll, the client then has exactly the current state. */
  lemma QuietPollIsCurrent(w: World, events: seq<Event>, e: Event)
    requires w.revs != [] && w.client == NOBODY && GoodPoll(Run(w, events), e) && e.between == []
    requires Distinct(Run(w, events).revs)
    ensures Has(w, events, e) == Some(|Next(Run(w, events), e).revs| - 1)
  {
    hide Run, Has;
    PollIsFresh(w, events, e);
  }

  /** After any good poll the remembered revision is the digest's, so the next usable digest
      fetches again exactly if it reads another revision: an edit inside a poll is not missed
      unless it put the revision back to the one that was read. */
  lemma LateEditRefetched(w: World, e: Event, f: Event)
    requires w.revs != [] && GoodPoll(w, e) && f.Poll? && !f.busy && f.usable
    ensures var revs := w.revs + e.between;
            NeedsFetch(Next(w, e).client, DigestOf(Next(w, e), f)) <==> revs[|revs| - 1] != w.revs[|w.revs| - 1]
  {
  }

  /** A poll that does not fetch leaves the client stale only at a revision an older state has
      had before, no newer than the state shown. */
  lemma StaleMeansRepeated(w: World, e: Event)
    requires Inv(w) && GoodPoll(w, e) && !NeedsFetch(w.client, DigestOf(w, e))
    ensures w.client.shown.Some?
    ensures var last := |w.revs| - 1;
            w.client.shown.value < last ==>
              exists g :: 0 <= g <= w.client.shown.value && w.revs[g] == w.revs[last]
  {
    var g :| 0 <= g <= w.client.shown.value && w.revs[g] == w.client.lastRev;
  }

  // ---- The converse: a repeated revision hides an edit ----

  function Edits(revs: seq<int>): seq<Event> {
    if revs == [] then [] else [Edit(revs[0])] + Edits(revs[1..])
  }

  lemma RunHead(w: World, e: Event, rest: seq<Event>)
    requires w.revs != []
    ensures Run(w, [e] + rest) == Run(Next(w, e), rest)
  {
    hide Next;
    assert ([e] + rest)[1..] == rest;
  }

  lemma RunNothing(w: World)
    requires w.revs != []
    ensures Run(w, []) == w
  {
  }

  lemma {:induction false} RunEdits(w: World, revs: seq<int>)
    requires w.revs != []
    ensures Run(w, Edits(revs)) == World(w.revs + revs, w.client)
    decreases |revs|
  {
    hide Run;
    if revs == [] {
      assert w.revs + [] == w.revs;
      RunNothing(w);
    } else {
      RunHead(w, Edit(revs[0]), Edits(revs[1..]));
      RunEdits(World(w.revs + [revs[0]], w.client), revs[1..]);
      assert w.revs + [revs[0]] + revs[1..] == w.revs + revs;
    }
  }

  const PLAIN_POLL := Poll(true, false, false, 0, 0, [], true)

  /** A client subscribes and polls at state g, then the device is edited up to state h. */
  function Hiding(revs: seq<int>, g: nat, h: nat): seq<Event>
    requires g < h < |revs|
  {
    [Sub(true), PLAIN_POLL] + Edits(revs[g + 1..h + 1])
  }

  /** Whenever states g < h share a revision, that run ends with the client at state g, and a
      further good poll leaves it there. */
  lemma RepeatedRevHidesEdit(revs: seq<int>, g: nat, h: nat)
    requires g < h < |revs| && revs[g] == revs[h]
    ensures var w := World(revs[..g + 1], NOBODY);
            var before := Run(w, Hiding(revs, g, h));
            && before.revs == revs[..h + 1]
            && GoodPoll(before, PLAIN_POLL) && Has(w, Hiding(revs, g, h), PLAIN_POLL) == Some(g)
  {
    var w0 := World(revs[..g + 1], NOBODY);
    var es := Hiding(revs, g, h);
    hide Run, Has;
    HasIsShown(w0, es, PLAIN_POLL);
    var w1 := Next(w0, Sub(true));
    var w2 := Next(w1, PLAIN_POLL);
    var edits := Edits(revs[g + 1..h + 1]);
    assert es == [Sub(true)] + ([PLAIN_POLL] + edits);
    RunHead(w0, Sub(true), [PLAIN_POLL] + edits);
    RunHead(w1, PLAIN_POLL, edits);
    RunEdits(w2, revs[g + 1..h + 1]);
    assert revs[..g + 1] + revs[g + 1..h + 1] == revs[..h + 1];
    assert w2.revs == w0.revs;
  }

  /** The exact condition on the tool's revisions: every good poll of every run over a history is
      fresh if and only if no two of its states share a revision. */
  lemma FreshIffDistinct(revs: seq<int>)
    ensures (forall w: World, events: seq<Event>, e: Event ::
               w.revs != [] && w.client == NOBODY && Run(w, events).revs <= revs && GoodPoll(Run(w, events), e)
               ==> Fresh(w, events, e))
            <==> Distinct(revs)
  {
    if g, h :| 0 <= g < h < |revs| && revs[g] == revs[h] {
      RepeatedRevHidesEdit(revs, g, h);
      var w, events := World(revs[..g + 1], NOBODY), Hiding(revs, g, h);
      assert !Fresh(w, events, PLAIN_POLL);
    } else {
      forall w: World, events: seq<Event>, e: Event |
        w.revs != [] && w.client == NOBODY && Run(w, events).revs <= revs && GoodPoll(Run(w, events), e)
        ensures Fresh(w, events, e)
      {
        PollIsFresh(w, events, e);
      }
    }
  }

  // ---- Subscribing ----

  /** Whatever the client had before, a subscription makes the next usable digest fetch, whatever
      its revision; and a client that has left is not sent anything. */
  lemma SubscribingForcesFetch(c: Client, seed: Fetch, d: Digest, fetch: Fetch)
    ensures NeedsFetch(Subscribe(c, seed).client, Read(d))
    ensures fetch.Hit? ==> Refetch(Subscribe(c, seed).client, Read(d), fetch).message == Some(Snapshot(fetch.gen))
    ensures seed.Hit? ==> Subscribe(c, seed).message == Some(Snapshot(seed.gen))
    ensures forall read :: Refetch(c.(sub := false), read, fetch) == Reply(c.(sub := false), None)
  {
  }

  // ---- The playhead ----

  /** Polling again with the same digest sends nothing: one good poll tells the client all of it. */
  lemma PollIdempotent(c: Client, d: Digest, fetch: Fetch, again: Fetch)
    requires NeedsFetch(c, Read(d)) ==> fetch.Hit?
    ensures var r := Refetch(c, Read(d), fetch);
            Refetch(r.client, Read(d), again) == Reply(r.client, None)
  {
    var r := Refetch(c, Read(d), fetch);
    assert !NeedsFetch(r.client, Read(d));
  }

  /** While the tool plays, every good poll leaves the client at the digest's tick, and a poll
      that moves only the playhead carries that tick. */
  lemma PlayheadFollows(c: Client, d: Digest, fetch: Fetch)
    requires c.sub && d.on && (NeedsFetch(c, Read(d)) ==> fetch.Hit?)
    ensures var r := Refetch(c, Read(d), fetch);
            && r.client.lastTick == d.tick
            && (r.message.Some? && r.message.value.Playhead? ==> r.message.value == Playhead(true, d.tick, d.bpm))
            && (r.message.None? ==> c.synced && c.lastRev == d.rev && c.lastTick == d.tick)
  {
  }
}
