/** The standalone host's 1-bit screen, the line rasteriser that draws on it, and the
    seven-tick push that ships it to the panel in six slices. */
module HostDisplay {
  import opened Machine
  import opened LineGeometry

  const WIDTH := 128
  const HEIGHT := 64
  const PIXELS := WIDTH * HEIGHT
  const PACKED := 1024
  const SLICE := 172
  const LAST_SLICE := 164

  type Screen = s: seq<bv8> | |s| == PIXELS && forall i :: 0 <= i < PIXELS ==> s[i] == 0 || s[i] == 1
    witness Repeat(0, PIXELS)

  // ---- Packing ----

  /** Where the column of eight pixels packed into byte i begins. */
  function Column(i: nat): (k: nat)
    requires i < PACKED
    ensures k + 7 * WIDTH < PIXELS
  {
    i / WIDTH * (8 * WIDTH) + i % WIDTH
  }

  /** b << j */
  function ShiftLeft(b: bv8, j: nat): bv8
    requires j < 8
  {
    match j
    case 0 => b
    case 1 => b << 1
    case 2 => b << 2
    case 3 => b << 3
    case 4 => b << 4
    case 5 => b << 5
    case 6 => b << 6
    case _ => b << 7
  }

  /** The first j pixels of a column, the topmost in bit 0. */
  function PackBits(screen: Screen, i: nat, j: nat): bv8
    requires i < PACKED && j <= 8
  {
    if j == 0 then 0
    else PackBits(screen, i, j - 1) | ShiftLeft(screen[Column(i) + (j - 1) * WIDTH], j - 1)
  }

  function Pack(screen: Screen): (r: seq<bv8>)
    ensures |r| == PACKED
  {
    seq(PACKED, i requires 0 <= i < PACKED => PackBits(screen, i, 8))
  }

  /** Bit j of p. */
  function BitAt(p: bv8, j: nat): bv8
    requires j < 8
  {
    match j
    case 0 => p & 1
    case 1 => (p >> 1) & 1
    case 2 => (p >> 2) & 1
    case 3 => (p >> 3) & 1
    case 4 => (p >> 4) & 1
    case 5 => (p >> 5) & 1
    case 6 => (p >> 6) & 1
    case _ => (p >> 7) & 1
  }

  /** The pixel that a packed image shows at (x, y). */
  function Unpack(packed: seq<bv8>, x: nat, y: nat): bv8
    requires |packed| == PACKED && x < WIDTH && y < HEIGHT
  {
    BitAt(packed[y / 8 * WIDTH + x], y % 8)
  }

  lemma BitsOfByte(b0: bv8, b1: bv8, b2: bv8, b3: bv8, b4: bv8, b5: bv8, b6: bv8, b7: bv8)
    requires b0 <= 1 && b1 <= 1 && b2 <= 1 && b3 <= 1 && b4 <= 1 && b5 <= 1 && b6 <= 1 && b7 <= 1
    ensures var p := b0 | (b1 << 1) | (b2 << 2) | (b3 << 3) | (b4 << 4) | (b5 << 5) | (b6 << 6) | (b7 << 7);
            && BitAt(p, 0) == b0 && BitAt(p, 1) == b1 && BitAt(p, 2) == b2 && BitAt(p, 3) == b3
            && BitAt(p, 4) == b4 && BitAt(p, 5) == b5 && BitAt(p, 6) == b6 && BitAt(p, 7) == b7
  {
  }

  lemma PackBitsStep(screen: Screen, i: nat, j: nat)
    requires i < PACKED && j < 8
    ensures PackBits(screen, i, 0) == 0
    ensures PackBits(screen, i, j + 1) == PackBits(screen, i, j) | ShiftLeft(screen[Column(i) + j * WIDTH], j)
  {
    hide ShiftLeft, Column;
  }

  lemma PackBitsUnfold(screen: Screen, i: nat)
    requires i < PACKED
    ensures var k := Column(i);
            PackBits(screen, i, 8) ==
            screen[k] | (screen[k + 128] << 1) | (screen[k + 256] << 2) | (screen[k + 384] << 3)
            | (screen[k + 512] << 4) | (screen[k + 640] << 5) | (screen[k + 768] << 6) | (screen[k + 896] << 7)
  {
    hide PackBits, Column;
    PackBitsStep(screen, i, 0);
    PackBitsStep(screen, i, 1);
    PackBitsStep(screen, i, 2);
    PackBitsStep(screen, i, 3);
    PackBitsStep(screen, i, 4);
    PackBitsStep(screen, i, 5);
    PackBitsStep(screen, i, 6);
    PackBitsStep(screen, i, 7);
  }

  lemma BitOfPacked(screen: Screen, i: nat, j: nat)
    requires i < PACKED && j < 8
    ensures BitAt(PackBits(screen, i, 8), j) == screen[Column(i) + j * WIDTH]
  {
    hide PackBits, BitAt, Column;
    var k := Column(i);
    PackBitsUnfold(screen, i);
    BitsOfByte(screen[k], screen[k + 128], screen[k + 256], screen[k + 384],
               screen[k + 512], screen[k + 640], screen[k + 768], screen[k + 896]);
    assert j == 0 || j == 1 || j == 2 || j == 3 || j == 4 || j == 5 || j == 6 || j == 7;
  }

  /** Packing loses nothing: every pixel can be read back from its bit. */
  lemma UnpackPack(screen: Screen, x: nat, y: nat)
    requires x < WIDTH && y < HEIGHT
    ensures Unpack(Pack(screen), x, y) == screen[y * WIDTH + x]
  {
    hide PackBits, BitAt;
    var i := y / 8 * WIDTH + x;
    assert i / WIDTH == y / 8 && i % WIDTH == x;
    assert y * WIDTH + x == Column(i) + y % 8 * WIDTH;
    BitOfPacked(screen, i, y % 8);
  }

  /** Two screens with the same packed image are the same screen. */
  lemma PackInjective(a: Screen, b: Screen)
    requires Pack(a) == Pack(b)
    ensures a == b
  {
    forall i | 0 <= i < PIXELS
      ensures a[i] == b[i]
    {
      UnpackPack(a, i % WIDTH, i / WIDTH);
      UnpackPack(b, i % WIDTH, i / WIDTH);
    }
  }

  // ---- The push, as a machine over ticks and draws ----

  datatype Slice = Slice(index: nat, bytes: seq<bv8>)

  /** The six slices of an image, numbered from 1. */
  function Slices(packed: seq<bv8>): (r: seq<Slice>)
    requires |packed| == PACKED
    ensures |r| == 6
  {
    seq(6, k requires 0 <= k < 6 => SliceOf(packed, k))
  }

  function SliceOf(packed: seq<bv8>, k: nat): Slice
    requires |packed| == PACKED && k < 6
  {
    Slice(k + 1, packed[SLICE * k..SLICE * k + if k == 5 then LAST_SLICE else SLICE])
  }

  /** `frames` lists every screen content so far, the last being the current one; `snap` and
      `shown` say which of them the running push and the last completed push show (-1 for
      none); `sent` lists the slices shipped. These are history and decide nothing. */
  datatype Display = Display(
    packed: seq<bv8>,
    pending: bool,
    dirty: nat,
    frames: seq<Screen>,
    snap: int,
    shown: int,
    sent: seq<Slice>)
  {
    function Current(): Screen
      requires frames != []
    {
      frames[|frames| - 1]
    }
  }

  ghost predicate Shape(d: Display) {
    |d.packed| == PACKED && d.dirty <= 7 && d.frames != []
  }

  /** push_screen(sync): sync 1 takes the snapshot, syncs 1 to 6 ship one slice each. */
  function Push(d: Display, sync: nat): (r: Display)
    requires Shape(d) && sync <= 6
    ensures Shape(r) && r.dirty == d.dirty && r.pending == d.pending && r.frames == d.frames
  {
    if sync == 0 then d
    else
      var e := if sync == 1 then d.(packed := Pack(d.Current()), snap := |d.frames| - 1) else d;
      e.(sent := e.sent + [SliceOf(e.packed, sync - 1)])
  }

  /** The display part of one main-loop tick. */
  function Tick(d: Display): (r: Display)
    requires Shape(d)
    ensures Shape(r)
  {
    var e := if d.pending && d.dirty == 0 then d.(dirty := 1, pending := false) else d;
    if e.dirty == 0 then e
    else
      var f := Push(e, e.dirty - 1);
      if e.dirty == 7 then f.(dirty := 0, shown := f.snap) else f.(dirty := e.dirty + 1)
  }

  /** Any drawing call that may change the screen. */
  function Draw(d: Display, screen: Screen): (r: Display)
    requires Shape(d)
    ensures Shape(r)
  {
    d.(frames := d.frames + [screen], pending := true)
  }

  function PushAll(d: Display, sync: nat): (r: Display)
    requires Shape(d) && 1 <= sync <= 7
    ensures Shape(r) && r.dirty == d.dirty && r.pending == d.pending && r.frames == d.frames
    decreases 7 - sync
  {
    if sync == 7 then d else PushAll(Push(d, sync), sync + 1)
  }

  /** host_flush_display: the whole push at once. */
  function Flush(d: Display): (r: Display)
    requires Shape(d)
    ensures Shape(r)
  {
    var e := PushAll(d, 1);
    e.(pending := false, dirty := 0, shown := e.snap)
  }

  datatype Event = DrawTo(screen: Screen) | LoopTick | FlushNow

  function Happen(d: Display, e: Event): (r: Display)
    requires Shape(d)
    ensures Shape(r)
  {
    match e
    case DrawTo(screen) => Draw(d, screen)
    case LoopTick => Tick(d)
    case FlushNow => Flush(d)
  }

  function Run(d: Display, events: seq<Event>): (r: Display)
    requires Shape(d)
    ensures Shape(r)
    decreases |events|
  {
    if events == [] then d else Run(Happen(d, events[0]), events[1..])
  }

  function Start(): (d: Display)
    ensures Shape(d)
  {
    Display(Repeat(0, PACKED), false, 0, [Repeat(0, PIXELS)], -1, -1, [])
  }

  /** The last n slices shipped. */
  function Tail(sent: seq<Slice>, n: nat): seq<Slice> {
    if n <= |sent| then sent[|sent| - n..] else sent
  }

  ghost predicate Inv(d: Display) {
    && Shape(d)
    && -1 <= d.shown <= d.snap < |d.frames|
    && (d.dirty >= 3 ==>
          && 0 <= d.snap && d.packed == Pack(d.frames[d.snap])
          && d.dirty - 2 <= |d.sent| && Tail(d.sent, d.dirty - 2) == Slices(d.packed)[..d.dirty - 2]
          && (!d.pending ==> d.snap == |d.frames| - 1))
    && (d.dirty < 3 && d.shown >= 0 ==> 6 <= |d.sent| && Tail(d.sent, 6) == Slices(Pack(d.frames[d.shown])))
    && (d.dirty == 0 && !d.pending && d.shown >= 0 ==> d.shown == |d.frames| - 1)
  }

  /** Shipping slice k next to slices 0..k-1 of the same image. */
  lemma TailGrows(d: Display, k: nat)
    requires Shape(d) && k < 6 && k <= |d.sent| && Tail(d.sent, k) == Slices(d.packed)[..k]
    ensures var e := d.(sent := d.sent + [SliceOf(d.packed, k)]);
            k + 1 <= |e.sent| && Tail(e.sent, k + 1) == Slices(d.packed)[..k + 1]
  {
    hide SliceOf;
    var e := d.(sent := d.sent + [SliceOf(d.packed, k)]);
    assert Tail(e.sent, k + 1) == Tail(d.sent, k) + [SliceOf(d.packed, k)];
    assert Slices(d.packed)[..k + 1] == Slices(d.packed)[..k] + [SliceOf(d.packed, k)];
  }

  /** A push past its snapshot keeps shipping the snapshot, whatever is drawn meanwhile. */
  lemma PushKeepsImage(d: Display, sync: nat)
    requires Shape(d) && 1 <= sync <= 6
    requires sync > 1 ==> 0 <= d.snap < |d.frames| && d.packed == Pack(d.frames[d.snap])
    requires sync - 1 <= |d.sent| && (sync > 1 ==> Tail(d.sent, sync - 1) == Slices(d.packed)[..sync - 1])
    ensures var e := Push(d, sync);
            && 0 <= e.snap < |e.frames| && e.packed == Pack(e.frames[e.snap])
            && e.snap == (if sync == 1 then |d.frames| - 1 else d.snap)
            && e.shown == d.shown
            && sync <= |e.sent| && Tail(e.sent, sync) == Slices(e.packed)[..sync]
  {
    hide Pack, Slices, SliceOf;
    var e := if sync == 1 then d.(packed := Pack(d.Current()), snap := |d.frames| - 1) else d;
    if sync == 1 {
      assert Tail(e.sent, 0) == [] == Slices(e.packed)[..0];
    }
    TailGrows(e, sync - 1);
  }

  lemma TickKeepsInv(d: Display)
    requires Inv(d)
    ensures Inv(Tick(d))
  {
    hide Pack, Slices, SliceOf, Tail;
    if d.dirty >= 2 {
      PushKeepsImage(d, d.dirty - 1);
      AllSlices(Push(d, d.dirty - 1).packed);
    }
  }

  lemma AllSlices(packed: seq<bv8>)
    requires |packed| == PACKED
    ensures Slices(packed)[..6] == Slices(packed)
  {
  }

  lemma FlushKeepsInv(d: Display)
    requires Inv(d)
    ensures Inv(Flush(d))
    ensures Flush(d).shown == |d.frames| - 1
  {
    hide Pack, Slices, SliceOf, Tail, Push;
    PushKeepsImage(d, 1);
    PushAllKeepsImage(Push(d, 1), 2);
    AllSlices(PushAll(d, 1).packed);
  }

  lemma {:induction false} PushAllKeepsImage(d: Display, sync: nat)
    requires Shape(d) && 2 <= sync <= 7
    requires 0 <= d.snap < |d.frames| && d.packed == Pack(d.frames[d.snap])
    requires sync - 1 <= |d.sent| && Tail(d.sent, sync - 1) == Slices(d.packed)[..sync - 1]
    ensures var e := PushAll(d, sync);
            && e.snap == d.snap && e.packed == d.packed
            && 6 <= |e.sent| && Tail(e.sent, 6) == Slices(e.packed)[..6]
    decreases 7 - sync
  {
    hide Pack, Slices, SliceOf, Tail, Push;
    if sync < 7 {
      PushKeepsImage(d, sync);
      PushAllKeepsImage(Push(d, sync), sync + 1);
    }
  }

  lemma DrawKeepsInv(d: Display, screen: Screen)
    requires Inv(d)
    ensures Inv(Draw(d, screen))
  {
    hide Pack, Slices, SliceOf;
  }

  lemma HappenKeepsInv(d: Display, e: Event)
    requires Inv(d)
    ensures Inv(Happen(d, e))
  {
    hide Tick, Flush, Draw, Inv;
    match e
    case DrawTo(screen) => DrawKeepsInv(d, screen);
    case LoopTick => TickKeepsInv(d);
    case FlushNow => FlushKeepsInv(d);
  }

  lemma {:induction false} RunKeepsInv(d: Display, events: seq<Event>)
    requires Inv(d)
    ensures Inv(Run(d, events))
    decreases |events|
  {
    hide Happen, Pack, Slices, SliceOf, Tail;
    if events != [] {
      HappenKeepsInv(d, events[0]);
      RunKeepsInv(Happen(d, events[0]), events[1..]);
    }
  }

  lemma StartInv()
    ensures Inv(Start())
  {
  }

  /** The bytes of consecutive slices. */
  function Joined(slices: seq<Slice>): seq<bv8> {
    if slices == [] then [] else slices[0].bytes + Joined(slices[1..])
  }

  lemma SlicesJoin(packed: seq<bv8>)
    requires |packed| == PACKED
    ensures Joined(Slices(packed)) == packed
  {
    var s := Slices(packed);
    assert Joined(s[6..]) == [];
    assert Joined(s[5..]) == packed[860..] by { assert s[5..][1..] == s[6..]; }
    assert Joined(s[4..]) == packed[688..] by { assert s[4..][1..] == s[5..]; }
    assert Joined(s[3..]) == packed[516..] by { assert s[3..][1..] == s[4..]; }
    assert Joined(s[2..]) == packed[344..] by { assert s[2..][1..] == s[3..]; }
    assert Joined(s[1..]) == packed[172..] by { assert s[1..][1..] == s[2..]; }
    assert s == [s[0]] + s[1..];
  }

  // ---- The panel ----

  /** The panel files a slice by its number: slice n holds the bytes from 172 (n - 1) on. */
  function Filed(panel: seq<bv8>, slice: Slice): (r: seq<bv8>)
    requires |panel| == PACKED
    ensures |r| == PACKED
  {
    if slice.index == 0 || SLICE * (slice.index - 1) + |slice.bytes| > PACKED then panel
    else
      var at := SLICE * (slice.index - 1);
      panel[..at] + slice.bytes + panel[at + |slice.bytes|..]
  }

  /** What the panel holds once these slices have reached it. */
  function Panel(sent: seq<Slice>): (r: seq<bv8>)
    ensures |r| == PACKED
  {
    if sent == [] then Repeat(0, PACKED) else Filed(Panel(sent[..|sent| - 1]), sent[|sent| - 1])
  }

  lemma PanelMore(sent: seq<Slice>, slice: Slice)
    ensures Panel(sent + [slice]) == Filed(Panel(sent), slice)
  {
    hide Filed;
    assert (sent + [slice])[..|sent|] == sent;
  }

  /** Slice k of an image extends what the panel shows of it from slices 0..k-1. */
  lemma FiledNext(panel: seq<bv8>, packed: seq<bv8>, k: nat)
    requires |panel| == |packed| == PACKED && k < 6 && panel[..SLICE * k] == packed[..SLICE * k]
    ensures var n := Min(PACKED, SLICE * (k + 1)); Filed(panel, SliceOf(packed, k))[..n] == packed[..n]
  {
    var at, bytes := SLICE * k, SliceOf(packed, k).bytes;
    var n := at + |bytes|;
    assert n == Min(PACKED, SLICE * (k + 1));
    assert packed[..n] == packed[..at] + packed[at..n];
    assert Filed(panel, SliceOf(packed, k))[..n] == panel[..at] + bytes;
  }

  /** Six slices of one image, numbered as they are, make the panel show it, whatever was there. */
  lemma {:induction false} PanelShows(sent: seq<Slice>, packed: seq<bv8>, k: nat)
    requires |packed| == PACKED && k <= 6
    ensures var n := Min(PACKED, SLICE * k); Panel(sent + Slices(packed)[..k])[..n] == packed[..n]
    decreases k
  {
    hide Panel, Filed, SliceOf;
    if k > 0 {
      PanelShows(sent, packed, k - 1);
      var earlier := sent + Slices(packed)[..k - 1];
      assert sent + Slices(packed)[..k] == earlier + [SliceOf(packed, k - 1)];
      PanelMore(earlier, SliceOf(packed, k - 1));
      FiledNext(Panel(earlier), packed, k - 1);
    }
  }

  // ---- Main results, over any interleaving of draws, ticks and flushes ----

  /** No tearing: whenever no push is past its snapshot, the panel holds the packed image of one
      single past screen content, every slice in its place; the last six slices join to it. */
  lemma NoTearing(events: seq<Event>)
    requires var d := Run(Start(), events); d.dirty < 3 && d.shown >= 0
    ensures var d := Run(Start(), events);
            && d.shown < |d.frames| && 6 <= |d.sent|
            && Panel(d.sent) == Pack(d.frames[d.shown])
            && Joined(d.sent[|d.sent| - 6..]) == Pack(d.frames[d.shown])
  {
    hide Pack, Slices, Panel, Joined;
    StartInv();
    RunKeepsInv(Start(), events);
    var d := Run(Start(), events);
    var image := Pack(d.frames[d.shown]);
    SlicesJoin(image);
    AllSlices(image);
    var n := |d.sent| - 6;
    assert d.sent == d.sent[..n] + d.sent[n..];
    PanelShows(d.sent[..n], image, 6);
    assert Panel(d.sent)[..PACKED] == Panel(d.sent) && image[..PACKED] == image;
  }

  /** Once anything has been pushed, an idle display shows the current screen. */
  lemma IdleShowsCurrent(events: seq<Event>)
    requires var d := Run(Start(), events); !d.pending && d.dirty == 0 && d.shown >= 0
    ensures var d := Run(Start(), events);
            && Panel(d.sent) == Pack(d.Current())
            && 6 <= |d.sent| && Joined(d.sent[|d.sent| - 6..]) == Pack(d.Current())
  {
    hide Pack, Slices, Panel, Joined;
    StartInv();
    RunKeepsInv(Start(), events);
    NoTearing(events);
  }

  // ---- Latency ----

  /** Ticks until a content at least as new as frame g has been shown in full. */
  function Debt(d: Display, g: int): nat
    requires Shape(d)
  {
    if d.shown >= g then 0
    else if d.dirty <= 2 then (if d.dirty == 0 then 7 else 8 - d.dirty)
    else if d.snap >= g then 8 - d.dirty
    else 15 - d.dirty
  }

  /** Something is under way for every frame that is not yet shown. */
  ghost predicate Scheduled(d: Display, g: int)
    requires Shape(d)
  {
    g < |d.frames| && (d.shown >= g || d.pending || 1 <= d.dirty <= 2 || (d.dirty >= 3 && d.snap >= g))
  }

  lemma EventPaysDebt(d: Display, g: int, e: Event)
    requires Inv(d) && Scheduled(d, g)
    ensures var r := Happen(d, e);
            && Scheduled(r, g)
            && Debt(r, g) <= Debt(d, g)
            && (e.LoopTick? && Debt(d, g) > 0 ==> Debt(r, g) < Debt(d, g))
  {
    hide Pack, Slices, SliceOf, Tail;
    if e.FlushNow? {
      hide Flush;
      FlushKeepsInv(d);
      FlushSettles(d);
    }
  }

  lemma FlushSettles(d: Display)
    requires Shape(d)
    ensures Flush(d).frames == d.frames && Flush(d).dirty == 0
  {
    hide Push;
  }

  function Ticks(events: seq<Event>): nat {
    if events == [] then 0 else (if events[0].LoopTick? then 1 else 0) + Ticks(events[1..])
  }

  lemma {:induction false} RunPaysDebt(d: Display, g: int, events: seq<Event>)
    requires Inv(d) && Scheduled(d, g) && Ticks(events) >= Debt(d, g)
    ensures Run(d, events).shown >= g
    decreases |events|
  {
    hide Happen, Debt, Scheduled, Pack, Slices, SliceOf, Tail;
    DebtRange(d, g);
    if events == [] {
    } else {
      HappenKeepsInv(d, events[0]);
      EventPaysDebt(d, g, events[0]);
      RunPaysDebt(Happen(d, events[0]), g, events[1..]);
    }
  }

  lemma DebtRange(d: Display, g: int)
    requires Shape(d)
    ensures Debt(d, g) <= 12
    ensures Debt(d, g) == 0 <==> d.shown >= g
  {
  }

  /** Whatever else is drawn or flushed meanwhile, twelve ticks after a draw a push whose
      snapshot is not older than that draw has been shipped in full. */
  lemma DrawnWithinTwelveTicks(before: seq<Event>, screen: Screen, after: seq<Event>)
    requires Ticks(after) >= 12
    ensures var d := Draw(Run(Start(), before), screen);
            Run(d, after).shown >= |d.frames| - 1
  {
    hide Inv;
    StartInv();
    RunKeepsInv(Start(), before);
    var d := Run(Start(), before);
    HappenKeepsInv(d, DrawTo(screen));
    var e := Draw(d, screen);
    DebtRange(e, |e.frames| - 1);
    RunPaysDebt(e, |e.frames| - 1, after);
  }

  /** A draw, and the two ticks that take its snapshot. */
  function UpToSnapshot(screen: Screen): seq<Event> {
    [DrawTo(screen), LoopTick, LoopTick]
  }

  lemma SnapshotTaken(screen: Screen)
    ensures var d := Run(Start(), UpToSnapshot(screen)); Inv(d) && d.dirty == 3
  {
    hide Inv, Pack, SliceOf, Tick;
    var events := UpToSnapshot(screen);
    StartInv();
    RunKeepsInv(Start(), events);
    var d0 := Draw(Start(), screen);
    var d1 := Tick(d0);
    var d2 := Tick(d1);
    assert events[1..][1..][1..] == [];
    assert Run(Start(), events) == Run(d0, events[1..]) == Run(d1, events[1..][1..]) == Run(d2, []) == d2;
    TickEffect(d0);
    TickEffect(d1);
  }

  /** Eleven ticks are not always enough: a draw just after a snapshot waits for the push in
      progress to end. */
  lemma TwelveIsTight(screen: Screen, again: Screen)
    ensures var e := Draw(Run(Start(), UpToSnapshot(screen)), again);
            Run(e, Repeat(LoopTick, 11)).shown < |e.frames| - 1
  {
    hide Inv, Pack, SliceOf, UpToSnapshot, Run, Draw;
    SnapshotTaken(screen);
    ElevenFallShort(Run(Start(), UpToSnapshot(screen)), again);
  }

  lemma ElevenFallShort(d: Display, screen: Screen)
    requires Inv(d) && d.dirty == 3
    ensures var e := Draw(d, screen);
            Run(e, Repeat(LoopTick, 11)).shown < |e.frames| - 1
  {
    hide Pack, SliceOf;
    var e := Draw(d, screen);
    TicksRun(e, 11);
  }

  /** Where n <= 11 ticks take a display that was dirtied just after a snapshot. */
  lemma {:induction false} TicksRun(d: Display, n: nat)
    requires Shape(d) && d.dirty == 3 && d.pending && n <= 11
    requires d.snap < |d.frames| - 1 && d.shown < |d.frames| - 1
    ensures var r := Run(d, Repeat(LoopTick, n));
            && r.frames == d.frames && r.shown < |d.frames| - 1
            && r.dirty == (if n < 5 then 3 + n else if n == 5 then 0 else n - 4)
            && r.pending == (n <= 5)
            && (n <= 6 ==> r.snap == d.snap)
  {
    hide Pack, SliceOf, Tick;
    if n > 0 {
      TicksRun(d, n - 1);
      RunLast(d, n - 1);
      var p := Run(d, Repeat(LoopTick, n - 1));
      assert Run(d, Repeat(LoopTick, n)) == Tick(p);
      TickEffect(p);
    }
  }

  lemma TickEffect(d: Display)
    requires Shape(d)
    ensures var r := Tick(d);
            && r.frames == d.frames
            && r.dirty == (if d.dirty == 7 || (d.dirty == 0 && !d.pending) then 0
                           else if d.dirty == 0 then 2 else d.dirty + 1)
            && r.pending == (d.pending && d.dirty != 0)
            && r.snap == (if d.dirty == 2 then |d.frames| - 1 else d.snap)
            && r.shown == (if d.dirty == 7 then d.snap else d.shown)
  {
    hide Pack, SliceOf;
  }

  lemma {:induction false} RunLast(d: Display, n: nat)
    requires Shape(d)
    ensures Run(d, Repeat(LoopTick, n + 1)) == Tick(Run(d, Repeat(LoopTick, n)))
    decreases n
  {
    hide Tick;
    var events := Repeat(LoopTick, n + 1);
    assert events[0] == LoopTick && events[1..] == Repeat(LoopTick, n);
    if n > 0 {
      RunLast(Tick(d), n - 1);
      assert Repeat(LoopTick, n)[1..] == Repeat(LoopTick, n - 1);
    }
  }

  // ---- The host's globals and the functions that update them ----

  predicate OnScreen(p: Point) {
    0 <= p.x < WIDTH && 0 <= p.y < HEIGHT
  }

  function Index(p: Point): (k: nat)
    requires OnScreen(p)
    ensures k < PIXELS
  {
    p.y * WIDTH + p.x
  }

  lemma IndexInjective(p: Point, q: Point)
    requires OnScreen(p) && OnScreen(q)
    ensures Index(p) == Index(q) <==> p == q
  {
  }

  function Bit(value: int): bv8 {
    if value != 0 then 1 else 0
  }

  /** The screen after set_pixel; a point off the screen changes nothing. */
  function Plot(screen: Screen, p: Point, value: int): Screen {
    if OnScreen(p) then screen[Index(p) := Bit(value)] else screen
  }

  /** `after` is `before` with exactly the covered on-screen points set to value. */
  ghost predicate Painted(before: Screen, after: Screen, covered: Point -> bool, value: int) {
    forall p: Point :: OnScreen(p) ==> after[Index(p)] == if covered(p) then Bit(value) else before[Index(p)]
  }

  class Host {
    const screen: array<bv8>
    const packed: array<bv8>
    const region: array<bv8>       // mapped_memory bytes 84..255
    var marker: nat                // mapped_memory byte 80
    var displayPending: bool
    var screenDirty: nat
    ghost var frames: seq<Screen>
    ghost var snap: int
    ghost var shown: int
    ghost var sent: seq<Slice>

    ghost predicate Valid()
      reads this, screen, packed, region
    {
      && screen.Length == PIXELS && packed.Length == PACKED && region.Length == SLICE
      && screen != packed && screen != region && packed != region
      && (forall i :: 0 <= i < PIXELS ==> screen[i] == 0 || screen[i] == 1)
      && frames != [] && frames[|frames| - 1] == screen[..]
      && screenDirty <= 7
    }

    ghost function View(): Display
      reads this, packed
    {
      Display(packed[..], displayPending, screenDirty, frames, snap, shown, sent)
    }

    constructor ()
      ensures Valid() && View() == Start()
      ensures fresh(screen) && fresh(packed) && fresh(region)
    {
      screen := new bv8[PIXELS](_ => 0);
      packed := new bv8[PACKED](_ => 0);
      region := new bv8[SLICE](_ => 0);
      marker, displayPending, screenDirty := 0, false, 0;
      frames, snap, shown, sent := [Repeat(0, PIXELS)], -1, -1, [];
      new;
      assert screen[..] == Repeat(0, PIXELS);
      assert packed[..] == Repeat(0, PACKED);
    }

    method SetPixel(x: int, y: int, value: int)
      requires Valid()
      modifies this`displayPending, this`frames, screen
      ensures Valid()
      ensures screen[..] == Plot(old(screen[..]), Point(x, y), value)
      ensures View() == if OnScreen(Point(x, y)) then Draw(old(View()), screen[..]) else old(View())
    {
      if x >= 0 && x < WIDTH && y >= 0 && y < HEIGHT {
        screen[y * WIDTH + x] := if value != 0 then 1 else 0;
        displayPending := true;
        frames := frames + [screen[..]];
      }
    }

    method ClearScreen()
      requires Valid()
      modifies this`displayPending, this`frames, screen
      ensures Valid()
      ensures screen[..] == Repeat(0, PIXELS)
      ensures View() == Draw(old(View()), screen[..])
    {
      forall i | 0 <= i < PIXELS {
        screen[i] := 0;
      }
      displayPending := true;
      frames := frames + [screen[..]];
      assert screen[..] == Repeat(0, PIXELS);
    }

    /** draw_line for all end points, on or off the screen: it terminates, and sets exactly
        the on-screen pixels of the line. */
    method DrawLine(x0: int, y0: int, x1: int, y1: int, value: int)
      requires Valid()
      modifies this`displayPending, this`frames, screen
      ensures Valid()
      ensures var l := Line(x0, y0, x1, y1);
              Painted(old(screen[..]), screen[..], (p: Point) => l.Covers(l.Steps() + 1, p), value)
      ensures old(frames) <= frames
      ensures screen[..] != old(screen[..]) ==> displayPending
      ensures old(displayPending) ==> displayPending
    {
      ghost var l := Line(x0, y0, x1, y1);
      var dx, dy := x1 - x0, y1 - y0;
      var sx, sy := if dx > 0 then 1 else -1, if dy > 0 then 1 else -1;
      dx, dy := if dx < 0 then -dx else dx, if dy < 0 then -dy else dy;
      if dx == 0 {
        DrawVertical(x0, if y0 < y1 then y0 else y1, if y0 < y1 then y1 else y0, value);
        forall p: Point { VerticalPixels(l, p); }
        return;
      }
      if dy == 0 {
        DrawHorizontal(y0, if x0 < x1 then x0 else x1, if x0 < x1 then x1 else x0, value);
        forall p: Point { HorizontalPixels(l, p); }
        return;
      }
      DrawSlanted(l, x0, y0, x1, y1, dx, dy, sx, sy, value);
    }

    method DrawVertical(x: int, start: int, end: int, value: int)
      requires Valid() && start <= end
      modifies this`displayPending, this`frames, screen
      ensures Valid() && old(frames) <= frames
      ensures screen[..] != old(screen[..]) ==> displayPending
      ensures old(displayPending) ==> displayPending
      ensures Painted(old(screen[..]), screen[..], (p: Point) => p.x == x && start <= p.y <= end, value)
    {
      for y := start to end + 1
        invariant Valid() && old(frames) <= frames
        invariant screen[..] != old(screen[..]) ==> displayPending
        invariant old(displayPending) ==> displayPending
        invariant Painted(old(screen[..]), screen[..], (p: Point) => p.x == x && start <= p.y < y, value)
      {
        ghost var mid: Screen := screen[..];
        SetPixel(x, y, value);
        PaintOne(old(screen[..]), mid, (p: Point) => p.x == x && start <= p.y < y, Point(x, y), value);
      }
    }

    method DrawHorizontal(y: int, start: int, end: int, value: int)
      requires Valid() && start <= end
      modifies this`displayPending, this`frames, screen
      ensures Valid() && old(frames) <= frames
      ensures screen[..] != old(screen[..]) ==> displayPending
      ensures old(displayPending) ==> displayPending
      ensures Painted(old(screen[..]), screen[..], (p: Point) => p.y == y && start <= p.x <= end, value)
    {
      for x := start to end + 1
        invariant Valid() && old(frames) <= frames
        invariant screen[..] != old(screen[..]) ==> displayPending
        invariant old(displayPending) ==> displayPending
        invariant Painted(old(screen[..]), screen[..], (p: Point) => p.y == y && start <= p.x < x, value)
      {
        ghost var mid: Screen := screen[..];
        SetPixel(x, y, value);
        PaintOne(old(screen[..]), mid, (p: Point) => p.y == y && start <= p.x < x, Point(x, y), value);
      }
    }

    /** The error-term loop. Its only exit is hitting the end point exactly. */
    method DrawSlanted(ghost l: Line, x0: int, y0: int, x1: int, y1: int,
        dx: int, dy: int, sx: int, sy: int, value: int)
      requires Valid()
      requires l == Line(x0, y0, x1, y1) && dx == l.Dx() > 0 && dy == l.Dy() > 0 && sx == l.Sx() && sy == l.Sy()
      modifies this`displayPending, this`frames, screen
      ensures Valid() && old(frames) <= frames
      ensures screen[..] != old(screen[..]) ==> displayPending
      ensures old(displayPending) ==> displayPending
      ensures Painted(old(screen[..]), screen[..], (p: Point) => l.Covers(l.Steps() + 1, p), value)
    {
      var x, y, err := x0, y0, dx - dy;
      ghost var i: nat := 0;
      WalkStart(l);
      while true
        invariant Valid() && old(frames) <= frames
        invariant screen[..] != old(screen[..]) ==> displayPending
        invariant old(displayPending) ==> displayPending
        invariant i <= l.Steps() && OnPath(l, i, x, y, err)
        invariant Painted(old(screen[..]), screen[..], (p: Point) => l.Covers(i, p), value)
        decreases l.Steps() - i
      {
        ghost var mid: Screen := screen[..];
        SetPixel(x, y, value);
        PaintPixel(l, i, old(screen[..]), mid, value);
        WalkEnd(l, i, x, y, err);
        if x == x1 && y == y1 {
          break;
        }
        WalkStep(l, i, x, y, err);
        var e2 := 2 * err;
        if e2 > -dy {
          err := err - dy;
          x := x + sx;
        }
        if e2 < dx {
          err := err + dx;
          y := y + sy;
        }
        i := i + 1;
      }
    }

    /** The sync-1 part of push_screen: three nested loops over rows of eight, columns and bits. */
    method PackScreen()
      requires Valid()
      modifies packed
      ensures packed[..] == Pack(screen[..])
    {
      ghost var s: Screen := screen[..];
      var i := 0;
      for y := 0 to HEIGHT / 8
        invariant i == y * WIDTH
        invariant forall k :: 0 <= k < i ==> packed[k] == PackBits(s, k, 8)
      {
        for x := 0 to WIDTH
          invariant i == y * WIDTH + x
          invariant forall k :: 0 <= k < i ==> packed[k] == PackBits(s, k, 8)
        {
          var b := PackColumn(i, y * WIDTH * 8 + x);
          packed[i] := b;
          i := i + 1;
        }
      }
    }

    method PackColumn(ghost i: nat, index: nat) returns (b: bv8)
      requires Valid() && i < PACKED && index == Column(i)
      ensures b == PackBits(screen[..], i, 8)
    {
      hide ShiftLeft;
      b := 0;
      for j := 0 to 8
        invariant b == PackBits(screen[..], i, j)
      {
        PackBitsStep(screen[..], i, j);
        b := b | ShiftLeft(screen[index + j * WIDTH], j);
      }
    }

    /** push_screen: sync 0 blanks the slice area, sync 1 packs the screen, and syncs 1 to 6
        put one slice and its number into the mailbox. */
    method PushScreen(sync: nat)
      requires Valid() && sync <= 6
      modifies this`marker, this`snap, this`sent, packed, region
      ensures Valid()
      ensures View() == Push(old(View()), sync)
      ensures sync == 0 ==> marker == old(marker) && region[..] == Repeat(0, SLICE)
      ensures sync > 0 ==>
                var at, n := SLICE * (sync - 1), if sync == 6 then LAST_SLICE else SLICE;
                && marker == sync && region[..n] == packed[at..at + n]
                && sent == old(sent) + [Slice(marker, region[..n])]
    {
      hide Pack;
      if sync == 0 {
        forall i | 0 <= i < SLICE {
          region[i] := 0;
        }
        assert region[..] == Repeat(0, SLICE);
        return;
      }
      if sync == 1 {
        PackScreen();
        snap := |frames| - 1;
      }
      ShipSlice(sync - 1);
    }

    method ShipSlice(slice: nat)
      requires Valid() && slice < 6
      modifies this`marker, this`sent, region
      ensures var at, n := SLICE * slice, if slice == 5 then LAST_SLICE else SLICE;
              && marker == slice + 1 && region[..n] == packed[at..at + n]
              && sent == old(sent) + [Slice(marker, region[..n])]
      ensures sent == old(sent) + [SliceOf(packed[..], slice)]
    {
      marker := slice + 1;
      var n := if slice == 5 then LAST_SLICE else SLICE;
      for i := 0 to n
        invariant marker == slice + 1 && sent == old(sent)
        invariant region[..i] == packed[SLICE * slice..SLICE * slice + i]
      {
        region[i] := packed[SLICE * slice + i];
      }
      assert packed[..][SLICE * slice..SLICE * slice + n] == packed[SLICE * slice..SLICE * slice + n];
      sent := sent + [Slice(marker, region[..n])];
    }

    /** The display part of a main-loop tick. */
    method TickDisplay()
      requires Valid()
      modifies this`marker, this`displayPending, this`screenDirty, this`snap, this`shown, this`sent, packed, region
      ensures Valid()
      ensures View() == Tick(old(View()))
    {
      hide Push;
      if displayPending && screenDirty == 0 {
        screenDirty := 1;
        displayPending := false;
      }
      if screenDirty >= 1 {
        PushScreen(screenDirty - 1);
        if screenDirty == 7 {
          screenDirty := 0;
          shown := snap;
        } else {
          screenDirty := screenDirty + 1;
        }
      }
    }

    /** host_flush_display, without its delays. */
    method FlushDisplay()
      requires Valid()
      modifies this`marker, this`displayPending, this`screenDirty, this`snap, this`shown, this`sent, packed, region
      ensures Valid()
      ensures View() == Flush(old(View()))
    {
      hide Push;
      for sync := 1 to 7
        invariant Valid()
        invariant PushAll(View(), sync) == PushAll(old(View()), 1)
      {
        PushScreen(sync);
      }
      displayPending := false;
      screenDirty := 0;
      shown := snap;
    }
  }

  /** What painting does to the image the panel gets: the covered pixels are lit, or dark for
      value 0, and every other pixel is as it was. */
  lemma PaintedShows(before: Screen, after: Screen, covered: Point -> bool, value: int, x: nat, y: nat)
    requires Painted(before, after, covered, value) && x < WIDTH && y < HEIGHT
    ensures Unpack(Pack(after), x, y) ==
            if covered(Point(x, y)) then (if value != 0 then 1 else 0) else Unpack(Pack(before), x, y)
  {
    hide Pack, Unpack;
    UnpackPack(before, x, y);
    UnpackPack(after, x, y);
    assert OnScreen(Point(x, y));
  }

  /** One more plotted point extends what is painted by that point. */
  lemma PaintOne(before: Screen, mid: Screen, covered: Point -> bool, q: Point, value: int)
    requires Painted(before, mid, covered, value)
    ensures Painted(before, Plot(mid, q, value), (p: Point) => covered(p) || p == q, value)
  {
    forall p: Point | OnScreen(p)
      ensures Plot(mid, q, value)[Index(p)] == if covered(p) || p == q then Bit(value) else before[Index(p)]
    {
      if OnScreen(q) {
        IndexInjective(p, q);
      }
    }
  }

  lemma PaintPixel(l: Line, i: nat, before: Screen, mid: Screen, value: int)
    requires Painted(before, mid, (p: Point) => l.Covers(i, p), value)
    ensures Painted(before, Plot(mid, l.Pixel(i), value), (p: Point) => l.Covers(i + 1, p), value)
  {
    PaintOne(before, mid, (p: Point) => l.Covers(i, p), l.Pixel(i), value);
    forall p: Point
      ensures l.Covers(i + 1, p) <==> l.Covers(i, p) || p == l.Pixel(i)
    {
    }
  }

  /** The loop is at pixel i, and the error term is the one that belongs there. */
  ghost predicate OnPath(l: Line, i: int, x: int, y: int, err: int) {
    && Point(x, y) == l.Pixel(i)
    && err == l.Dx() - l.Dy() + l.AlongY(i) * l.Dx() - l.AlongX(i) * l.Dy()
  }

  lemma WalkStart(l: Line)
    requires l.Dx() > 0 && l.Dy() > 0
    ensures OnPath(l, 0, l.x0, l.y0, l.Dx() - l.Dy())
  {
    ShareEnds(Min(l.Dx(), l.Dy()), Max(l.Dx(), l.Dy()));
  }

  /** The end point is hit at pixel Steps() and no earlier. */
  lemma WalkEnd(l: Line, i: nat, x: int, y: int, err: int)
    requires l.Dx() > 0 && l.Dy() > 0 && i <= l.Steps() && OnPath(l, i, x, y, err)
    ensures x == l.x1 && y == l.y1 <==> i == l.Steps()
  {
    EndPoints(l);
    if i != l.Steps() {
      PixelsDistinct(l, i, l.Steps());
    }
  }

  /** One pass of the loop body moves from pixel i to pixel i + 1. */
  lemma WalkStep(l: Line, i: nat, x: int, y: int, err: int)
    requires l.Dx() > 0 && l.Dy() > 0 && OnPath(l, i, x, y, err)
    ensures var stepX, stepY := 2 * err > -l.Dy(), 2 * err < l.Dx();
            OnPath(l, i + 1,
                   if stepX then x + l.Sx() else x,
                   if stepY then y + l.Sy() else y,
                   err - (if stepX then l.Dy() else 0) + if stepY then l.Dx() else 0)
  {
    StepCounts(l, i, err);
    NextProduct(l.AlongX(i), l.AlongX(i + 1), l.Dy());
    NextProduct(l.AlongY(i), l.AlongY(i + 1), l.Dx());
  }

  lemma StepCounts(l: Line, i: nat, err: int)
    requires l.Dx() > 0 && l.Dy() > 0
    requires err == l.Dx() - l.Dy() + l.AlongY(i) * l.Dx() - l.AlongX(i) * l.Dy()
    ensures l.AlongX(i + 1) == l.AlongX(i) + if 2 * err > -l.Dy() then 1 else 0
    ensures l.AlongY(i + 1) == l.AlongY(i) + if 2 * err < l.Dx() then 1 else 0
  {
    hide Share;
    if l.Dx() >= l.Dy() {
      Decision(i, l.Dy(), l.Dx(), err);
    } else {
      Decision(i, l.Dx(), l.Dy(), -err);
    }
  }

  lemma NextProduct(a: int, b: int, d: int)
    requires b == a || b == a + 1
    ensures b * d == a * d + if b == a then 0 else d
  {
    if b == a + 1 {
      assert (a + 1) * d == a * d + d;
    }
  }
}
