/** The per-slot delay ring that lines the local synth up with Link Audio. */
module LatencyDelay {
  import opened Machine

  const SLOTS := 4
  const BLOCK := 256          // FRAMES_PER_BLOCK * 2 samples
  const RING := 2048
  const COMP_TARGET := 1400   // LATENCY_COMP_TARGET_SAMPLES

  type Sample = x: int | -32768 <= x < 32768

  type Stream = seq<Sample>

  /** Sample k of the stream, silence outside it. */
  function At(stream: Stream, k: int): Sample {
    if 0 <= k < |stream| then stream[k] else 0
  }

  /** The newest stream position, counting positions before the start, that a ring
      which has absorbed n samples keeps at ring position k. */
  function Newest(n: nat, k: int): (m: int)
    ensures n - RING <= m < n && (m - k) % RING == 0
  {
    n - 1 - (n - 1 - k) % RING
  }

  /** What the code delivers as sample i of a block requested d behind stream position n. */
  function Tap(stream: Stream, d: nat, i: nat): Sample {
    At(stream, Newest(|stream|, |stream| - d + i))
  }

  function TapBlock(stream: Stream, d: nat): (out: seq<Sample>)
    ensures |out| == BLOCK
  {
    seq(BLOCK, i requires 0 <= i => Tap(stream, d, i))
  }

  class DelayLine {
    const ring: array2<Sample>
    const wp: array<Word>
    ghost var fed: seq<Stream>   // everything written to each slot since reset

    ghost predicate Valid()
      reads this, ring, wp
    {
      && ring.Length0 == SLOTS && ring.Length1 == RING && wp.Length == SLOTS && |fed| == SLOTS
      && forall s :: 0 <= s < SLOTS ==> Holds(s, fed[s])
    }

    /** Slot s's ring and write cursor are those left by having absorbed `stream`. */
    ghost predicate Holds(s: int, stream: Stream)
      requires ring.Length0 == SLOTS && ring.Length1 == RING && wp.Length == SLOTS && 0 <= s < SLOTS
      reads ring, wp
    {
      && wp[s] == Wrap32(|stream|)
      && forall k :: 0 <= k < RING ==> ring[s, k] == At(stream, Newest(|stream|, k))
    }

    constructor ()
      ensures Valid() && fresh(ring) && fresh(wp)
      ensures fed == Repeat([], SLOTS)
    {
      ring := new Sample[SLOTS, RING]((_, _) => 0);
      wp := new Word[SLOTS](_ => 0);
      fed := Repeat([], SLOTS);
    }

    /** shadow_latency_delay_reset: the stream of every slot starts again. */
    method Reset()
      requires Valid()
      modifies this, ring, wp
      ensures Valid()
      ensures fed == Repeat([], SLOTS)
    {
      forall s, k | 0 <= s < SLOTS && 0 <= k < RING {
        ring[s, k] := 0;
      }
      for s := 0 to SLOTS
        invariant forall t :: 0 <= t < s ==> wp[t] == 0
        invariant forall t, k :: 0 <= t < SLOTS && 0 <= k < RING ==> ring[t, k] == 0
      {
        wp[s] := 0;
      }
      fed := Repeat([], SLOTS);
    }

    /** shadow_latency_delay_apply, for any 32-bit delay: reads the old ring, then absorbs
        the block, and touches no other slot. */
    method Apply(slot: nat, input: array<Sample>, out: array<Sample>, delay: Word)
      requires Valid() && slot < SLOTS
      requires input.Length == BLOCK && out.Length == BLOCK && input != out
      modifies this, ring, wp, out
      ensures Valid()
      ensures out[..] == TapBlock(old(fed[slot]), delay)
      ensures fed == old(fed)[slot := old(fed[slot]) + old(input[..])]
    {
      hide Newest, At, Wrap32;
      ghost var stream := fed[slot];
      var w := wp[slot];
      var rp := Wrap32(w - delay) % RING;
      for i := 0 to BLOCK
        invariant unchanged(ring) && unchanged(wp) && unchanged(this)
        invariant forall j :: 0 <= j < i ==> out[j] == Tap(stream, delay, j)
      {
        TapPosition(|stream|, delay, i);
        out[i] := ring[slot, Wrap32(rp + i) % RING];
      }
      assert out[..] == TapBlock(stream, delay);
      assert stream + input[..0] == stream;
      for i := 0 to BLOCK
        invariant unchanged(wp) && unchanged(this) && unchanged(input)
        invariant out[..] == TapBlock(stream, delay)
        invariant forall s, k :: 0 <= s < SLOTS && s != slot && 0 <= k < RING ==> ring[s, k] == old(ring[s, k])
        invariant forall k :: 0 <= k < RING ==>
                    ring[slot, k] == At(stream + input[..i], Newest(|stream| + i, k))
      {
        WritePosition(stream, input[..], i);
        ring[slot, Wrap32(w + i) % RING] := input[i];
      }
      wp[slot] := Wrap32(w + BLOCK);
      fed := fed[slot := stream + input[..]];
      assert input[..BLOCK] == input[..];
      WrapAdd(|stream|, BLOCK);
      assert Holds(slot, fed[slot]);
      forall s | 0 <= s < SLOTS && s != slot
        ensures Holds(s, fed[s])
      {
        assert old(Holds(s, fed[s]));
      }
    }
  }

  lemma WrapAdd(n: nat, k: nat)
    ensures Wrap32(Wrap32(n) + k) == Wrap32(n + k)
  {
  }

  /** Reduction modulo 2^32 and then modulo RING keeps the residue modulo RING. */
  lemma WrapKeepsResidue(x: int)
    ensures Wrap32(x) % RING == x % RING
  {
    var q := x / TWO32;
    assert x == TWO32 * q + Wrap32(x);
    assert x - Wrap32(x) == RING * (q * (TWO32 / RING));
  }

  lemma SameResidue(n: nat, k: int, m: int)
    requires k % RING == m % RING
    ensures Newest(n, k) == Newest(n, m)
  {
    assert (n - 1 - k) % RING == (n - 1 - m) % RING;
  }

  /** The masked 32-bit read index is the ring position of stream position n - d + i. */
  lemma TapPosition(n: nat, d: Word, i: nat)
    requires i < BLOCK
    ensures var k := Wrap32(Wrap32(Wrap32(n) - d) % RING + i) % RING;
            0 <= k < RING && Newest(n, k) == Newest(n, n - d + i)
  {
    hide Newest, Wrap32;
    var start: int := Wrap32(Wrap32(n) - d);
    var k: int := Wrap32(start % RING + i) % RING;
    WrapKeepsResidue(n);
    ShiftResidue(Wrap32(n), n, -(d as int));
    WrapKeepsResidue(Wrap32(n) - d);
    ShiftResidue(start % RING, n - d, i);
    WrapKeepsResidue(start % RING + i);
    SameResidue(n, k, n - d + i);
  }

  lemma ShiftResidue(a: int, b: int, i: int)
    requires a % RING == b % RING
    ensures (a + i) % RING == (b + i) % RING
  {
  }

  /** The masked 32-bit write index is the ring position of stream position n + i. */
  lemma WriteIndex(n: nat, i: nat)
    ensures var p := Wrap32(Wrap32(n) + i) % RING; 0 <= p < RING && (n + i - p) % RING == 0
  {
  }

  /** One more sample at position n displaces only what ring position p held. */
  lemma NewestStep(n: nat, p: int, k: int)
    requires 0 <= p < RING && 0 <= k < RING && (n - p) % RING == 0
    ensures Newest(n + 1, p) == n
    ensures k != p ==> Newest(n + 1, k) == Newest(n, k)
  {
    if k != p {
      assert (n - k) % RING != 0;
    }
  }

  /** Writing one more sample at the masked write index extends the stream by that sample. */
  lemma WritePosition(stream: Stream, input: seq<Sample>, i: nat)
    requires i < |input|
    ensures var n := |stream| + i;
            var p := Wrap32(Wrap32(|stream|) + i) % RING;
            && At(stream + input[..i + 1], Newest(n + 1, p)) == input[i]
            && forall k :: 0 <= k < RING && k != p ==>
                 At(stream + input[..i + 1], Newest(n + 1, k)) == At(stream + input[..i], Newest(n, k))
  {
    hide Newest, Wrap32;
    var n := |stream| + i;
    var p := Wrap32(Wrap32(|stream|) + i) % RING;
    WriteIndex(|stream|, i);
    NewestStep(n, p, p);
    forall k | 0 <= k < RING && k != p
      ensures At(stream + input[..i + 1], Newest(n + 1, k)) == At(stream + input[..i], Newest(n, k))
    {
      NewestStep(n, p, k);
    }
  }

  // ---- When is it a delay line? ----

  /** A delay line: sample i of the block that begins at position |stream| is the stream d earlier. */
  ghost predicate Delays(stream: Stream, d: nat) {
    forall i :: 0 <= i < BLOCK ==> Tap(stream, d, i) == At(stream, |stream| - d + i)
  }

  /** A stream of whole blocks that is silent but for a single sample of value 1. */
  function Impulse(blocks: nat, at: nat): (s: Stream)
    ensures |s| == blocks * BLOCK
  {
    seq(blocks * BLOCK, k => if k == at then 1 else 0)
  }

  lemma TapIsDelayed(stream: Stream, d: nat, i: nat)
    requires BLOCK <= d <= RING && i < BLOCK
    ensures Tap(stream, d, i) == At(stream, |stream| - d + i)
  {
    assert Newest(|stream|, |stream| - d + i) == |stream| - d + i;
  }

  /** The ring is a delay line for every stream of whole blocks exactly when
      256 <= d <= 2048. Below that a block would have to read its own input; above it the
      sample has been overwritten. The comment beside the code asks only for d <= 1792. */
  lemma PureDelayIff(d: nat)
    ensures (forall stream: Stream | |stream| % BLOCK == 0 :: Delays(stream, d)) <==> BLOCK <= d <= RING
  {
    if BLOCK <= d <= RING {
      forall stream: Stream | |stream| % BLOCK == 0
        ensures Delays(stream, d)
      {
        forall i | 0 <= i < BLOCK
          ensures Tap(stream, d, i) == At(stream, |stream| - d + i)
        {
          TapIsDelayed(stream, d, i);
        }
      }
    } else {
      NotDelayed(d);
    }
  }

  /** Outside that range an impulse comes out where a delay of d would be silent. */
  lemma NotDelayed(d: nat)
    requires !(BLOCK <= d <= RING)
    ensures exists stream: Stream :: |stream| % BLOCK == 0 && !Delays(stream, d)
  {
    var i := if d < BLOCK then BLOCK - 1 else 0;
    var n := 9 * BLOCK;
    var m := Newest(n, n - d + i);
    var stream := Impulse(9, m);
    assert Tap(stream, d, i) == 1;
    assert At(stream, n - d + i) == 0;
    assert !Delays(stream, d);
  }

  // ---- Whole runs ----

  type Block = b: seq<Sample> | |b| == BLOCK witness Repeat(0, BLOCK)

  function Concat(blocks: seq<Block>): (s: Stream)
    ensures |s| == BLOCK * |blocks|
  {
    if blocks == [] then [] else Concat(blocks[..|blocks| - 1]) + blocks[|blocks| - 1]
  }

  /** Everything Apply delivers while the blocks are fed to one slot after a reset. */
  function Output(blocks: seq<Block>, d: nat): (s: Stream)
    ensures |s| == BLOCK * |blocks|
  {
    if blocks == [] then []
    else Output(blocks[..|blocks| - 1], d) + TapBlock(Concat(blocks[..|blocks| - 1]), d)
  }

  /** Over any run since reset, of any length (the 32-bit write cursor may wrap many
      times), output sample j is input sample j - d, and silence before the start. */
  lemma {:induction false} RunIsDelayLine(blocks: seq<Block>, d: nat, j: nat)
    requires BLOCK <= d <= RING && j < BLOCK * |blocks|
    ensures Output(blocks, d)[j] == At(Concat(blocks), j - d)
    decreases |blocks|
  {
    var earlier := blocks[..|blocks| - 1];
    var n := BLOCK * |earlier|;
    if j < n {
      RunIsDelayLine(earlier, d, j);
    } else {
      TapIsDelayed(Concat(earlier), d, j - n);
    }
  }

  /** The compensation the mixer asks for is within the range. */
  lemma CompensationIsPureDelay(blocks: seq<Block>, j: nat)
    requires j < BLOCK * |blocks|
    ensures Output(blocks, COMP_TARGET)[j] == At(Concat(blocks), j - COMP_TARGET)
  {
    RunIsDelayLine(blocks, COMP_TARGET, j);
  }

  /** A run of Apply on one slot after a reset, connecting the method to Output. */
  method Replay(blocks: seq<Block>, slot: nat, d: Word) returns (played: seq<Sample>)
    requires slot < SLOTS
    ensures played == Output(blocks, d)
  {
    var line := new DelayLine();
    played := [];
    var input, out := new Sample[BLOCK](_ => 0), new Sample[BLOCK](_ => 0);
    for i := 0 to |blocks|
      invariant line.Valid() && fresh(line) && fresh(line.ring) && fresh(line.wp) && fresh(input) && fresh(out)
      invariant line.fed[slot] == Concat(blocks[..i])
      invariant played == Output(blocks[..i], d)
    {
      forall k | 0 <= k < BLOCK {
        input[k] := blocks[i][k];
      }
      assert input[..] == blocks[i];
      assert blocks[..i + 1][..i] == blocks[..i];
      line.Apply(slot, input, out, d);
      played := played + out[..];
    }
    assert blocks[..|blocks|] == blocks;
  }
}
