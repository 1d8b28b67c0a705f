/** The shadow process's triple buffer and its drift correction: the renderer writes ahead, and
    the shim mixes the buffer two behind. A call on either side is one whole step. */
module TripleBuffer {
  import opened Machine

  const BUFFERS := 3

  /** Blocks one call renders when the 32-bit counter is `advance` past the last one seen. */
  function ToRender(advance: Word): (n: nat)
    ensures n <= BUFFERS && n <= advance
  {
    if advance > BUFFERS then 1 else advance
  }

  /** The unbounded counts behind the cursors: blocks the shim has played, the count the
      renderer last acted on, and blocks rendered. */
  datatype Counts = Counts(played: nat, seen: nat, rendered: nat)

  function Render(c: Counts): Counts {
    var advance := Wrap32(c.played - c.seen);
    if advance == 0 then c else Counts(c.played, c.played, c.rendered + ToRender(advance))
  }

  function Play(c: Counts): Counts {
    c.(played := c.played + 1)
  }

  class Shared {
    const buffers: array<Option<nat>>   // which rendered block each buffer holds
    var writeIdx: nat
    var readIdx: nat
    var shimCounter: Word
    var lastCounter: Word
    var nextBlock: nat                  // stands for the plugin: the block it renders next
    ghost var counts: Counts

    ghost predicate Valid()
      reads this, buffers
    {
      && buffers.Length == BUFFERS
      && shimCounter == Wrap32(counts.played) && lastCounter == Wrap32(counts.seen)
      && counts.rendered <= counts.seen <= counts.played
      && nextBlock == counts.rendered && writeIdx == nextBlock % BUFFERS
      && (counts.rendered >= 1 ==> buffers[(counts.rendered - 1) % BUFFERS] == Some(counts.rendered - 1))
      && (counts.rendered >= 2 ==> buffers[(counts.rendered - 2) % BUFFERS] == Some(counts.rendered - 2))
      && (forall b :: 0 <= b < BUFFERS && buffers[b].Some? ==>
            buffers[b].value < counts.rendered && buffers[b].value % BUFFERS == b)
    }

    constructor ()
      ensures Valid() && fresh(buffers) && counts == Counts(0, 0, 0)
    {
      buffers := new Option<nat>[BUFFERS](_ => None);
      writeIdx, readIdx, shimCounter, lastCounter, nextBlock := 0, 0, 0, 0, 0;
      counts := Counts(0, 0, 0);
    }

    /** render_audio: catch up by at most three blocks, or by one after a longer gap. */
    method RenderAudio()
      requires Valid()
      modifies this, buffers
      ensures Valid()
      ensures counts == Render(old(counts))
      ensures readIdx == old(readIdx) && shimCounter == old(shimCounter)
    {
      hide Wrap32;
      var blocks := Wrap32(shimCounter - lastCounter);
      AdvanceIsDifference(counts.played, counts.seen);
      if blocks == 0 {
        return;
      }
      lastCounter := shimCounter;
      if blocks > BUFFERS {
        blocks := 1;
      }
      counts := counts.(seen := counts.played);
      for b := 0 to blocks
        invariant Valid() && shimCounter == old(shimCounter) && readIdx == old(readIdx)
        invariant counts == Counts(old(counts).played, old(counts).played, old(counts).rendered + b)
      {
        RenderBlock();
      }
    }

    /** The loop body: one block into the buffer at write_idx, which then moves on. */
    method RenderBlock()
      requires Valid() && counts.rendered < counts.seen
      modifies this`writeIdx, this`nextBlock, this`counts, buffers
      ensures Valid() && counts == old(counts).(rendered := old(counts).rendered + 1)
    {
      buffers[writeIdx] := Some(nextBlock);
      nextBlock := nextBlock + 1;
      writeIdx := (writeIdx + 1) % BUFFERS;
      counts := counts.(rendered := counts.rendered + 1);
    }

    /** The shim's side of a block: bump the counter and pick the buffer to mix. It is never the
        buffer the renderer writes next, and it holds the last block but one, if there is one. */
    method MixBlock() returns (mixed: Option<nat>)
      requires Valid()
      modifies this`shimCounter, this`readIdx, this`counts
      ensures Valid()
      ensures counts == Play(old(counts))
      ensures readIdx < BUFFERS && readIdx != writeIdx
      ensures mixed == if counts.rendered >= 2 then Some(counts.rendered - 2) else buffers[readIdx]
      ensures counts.rendered < 2 ==> mixed == None
    {
      hide Wrap32;
      CounterBump(counts.played);
      TwoBehind(nextBlock);
      shimCounter := Wrap32(shimCounter + 1);
      counts := Play(counts);
      readIdx := (writeIdx + BUFFERS - 2) % BUFFERS;
      mixed := buffers[readIdx];
    }
  }

  /** What one render call catches up, by how far it finds the counter on: up to three blocks as
      they are, one after a longer gap, and nothing if the counter has not moved. */
  lemma CatchUp(c: Counts)
    ensures var gap, r := Wrap32(c.played - c.seen), Render(c);
            && r.played == c.played
            && (gap == 0 ==> r.rendered == c.rendered && r.seen == c.seen)
            && (1 <= gap <= 3 ==> r.rendered == c.rendered + gap && r.seen == c.played)
            && (gap > 3 ==> r.rendered == c.rendered + 1 && r.seen == c.played)
  {
    hide Wrap32;
  }

  lemma CounterBump(n: nat)
    ensures Wrap32(Wrap32(n) + 1) == Wrap32(n + 1)
  {
  }

  lemma TwoBehind(n: nat)
    ensures var r := (n % BUFFERS + BUFFERS - 2) % BUFFERS;
            0 <= r < BUFFERS && r != n % BUFFERS && (n >= 2 ==> r == (n - 2) % BUFFERS) && (n < 2 ==> r > 0)
  {
  }

  lemma AdvanceIsDifference(played: nat, seen: nat)
    requires seen <= played
    ensures Wrap32(Wrap32(played) - Wrap32(seen)) == Wrap32(played - seen)
    ensures Wrap32(played - seen) <= played - seen
  {
  }

  // ---- Runs ----

  datatype Event = Shim | Renderer

  function After(events: seq<Event>): Counts {
    if events == [] then Counts(0, 0, 0)
    else
      var c := After(events[..|events| - 1]);
      if events[|events| - 1].Shim? then Play(c) else Render(c)
  }

  /** However the two sides are scheduled, the renderer never gets ahead of the shim. */
  lemma {:induction false} NeverAhead(events: seq<Event>)
    ensures var c := After(events); c.rendered <= c.seen <= c.played
    decreases |events|
  {
    if events != [] {
      NeverAhead(events[..|events| - 1]);
      var c := After(events[..|events| - 1]);
      AdvanceIsDifference(c.played, c.seen);
    }
  }

  /** Render call i finds the shim at most three blocks on, or the gap is a whole number of
      counter wraps, so that the call sees no advance and accounts for nothing. */
  predicate InTime(events: seq<Event>, i: nat)
    requires i < |events|
  {
    events[i].Renderer? ==>
      var c := After(events[..i]); c.played - c.seen <= BUFFERS || Wrap32(c.played - c.seen) == 0
  }

  /** Every block the renderer has accounted for was rendered, with none skipped, exactly when
      no render call that saw an advance came more than three blocks late -- over runs of any
      length, across wraps of the 32-bit counter. */
  lemma {:induction false} NoneSkippedIff(events: seq<Event>)
    ensures After(events).rendered == After(events).seen <==> forall i :: 0 <= i < |events| ==> InTime(events, i)
    decreases |events|
  {
    if events != [] {
      var n := |events| - 1;
      var earlier := events[..n];
      NoneSkippedIff(earlier);
      NeverAhead(earlier);
      SkipStep(After(earlier));
      forall i | 0 <= i < n
        ensures InTime(earlier, i) <==> InTime(events, i)
      {
        assert earlier[..i] == events[..i];
      }
      assert (forall i :: 0 <= i < |events| ==> InTime(events, i)) <==>
             InTime(events, n) && (forall i :: 0 <= i < n ==> InTime(earlier, i));
    }
  }

  lemma SkipStep(c: Counts)
    requires c.rendered <= c.seen <= c.played
    ensures var r := Render(c);
            r.rendered == r.seen <==>
            c.rendered == c.seen && (c.played - c.seen <= BUFFERS || Wrap32(c.played - c.seen) == 0)
  {
    AdvanceIsDifference(c.played, c.seen);
  }
}
