/*
 * The segmenter's pixel controller: it expands the browser's inclusive
 * ranges into an on/off vector, renders an RGB buffer from it with the
 * minimum-pixel blackout and the blink and chase overlays, and sends the
 * buffer over DDP on every output tick.
 */
module Segmenter {
  import opened Bytes
  import Wrappers
  import DdpNet

  /** An inclusive range of pixel numbers as the browser sends it. */
  datatype Range = Range(from: int, to: int)

  /** The colours given on the command line (on, off, blink and chase). */
  datatype Colors = Colors(on: nat, off: nat, blink: nat, chase: nat)

  const DefaultColors := Colors(0x00ff00, 0xff0000, 0x0000ff, 0x00ff00)

  // ---------------------------------------------------------------------
  // Modes

  datatype ActionMode = Unknown | Nav | On | Off | Find

  /** The name the browser uses for a mode ("" for the unknown mode). */
  function ModeName(m: ActionMode): string
  {
    match m
    case Unknown => ""
    case Nav => "NAV"
    case On => "ON"
    case Off => "OFF"
    case Find => "FIND"
  }

  /** parseMode: the four names, anything else is the unknown mode. */
  function ParseMode(str: string): (m: ActionMode)
    ensures m != Unknown ==> ModeName(m) == str
  {
    if str == "NAV" then Nav
    else if str == "ON" then On
    else if str == "OFF" then Off
    else if str == "FIND" then Find
    else Unknown
  }

  /** Every mode but the unknown one is recognised by its own name. */
  lemma ParseModeName(m: ActionMode)
    requires m != Unknown
    ensures ParseMode(ModeName(m)) == m
  {
  }

  /** A string that names no mode parses as the unknown mode. */
  lemma ParseModeOther(str: string)
    requires str !in {"NAV", "ON", "OFF", "FIND"}
    ensures ParseMode(str) == Unknown
  {
  }

  // ---------------------------------------------------------------------
  // On/off states

  /** Some range of `ranges` contains pixel i. */
  predicate Covered(ranges: seq<Range>, i: int)
  {
    exists k :: 0 <= k < |ranges| && ranges[k].from <= i <= ranges[k].to
  }

  /** The state vector updateStates computes for n pixels. */
  function StatesFor(ranges: seq<Range>, n: nat): (r: seq<bool>)
    ensures |r| == n
  {
    seq(n, i => 0 < i && Covered(ranges, i))
  }

  /**
   * updateStates: clear every state, then mark each pixel of each range
   * that is above 0 and below the length.
   */
  method UpdateStates(ranges: seq<Range>, states: array<bool>)
    modifies states
    ensures states[..] == StatesFor(ranges, states.Length)
  {
    var i := 0;
    while i < states.Length
      invariant 0 <= i <= states.Length
      invariant forall j :: 0 <= j < i ==> !states[j]
    {
      states[i] := false;
      i := i + 1;
    }
    var k := 0;
    while k < |ranges|
      invariant 0 <= k <= |ranges|
      invariant forall j :: 0 <= j < states.Length ==> states[j] == (0 < j && Covered(ranges[..k], j))
    {
      var r := ranges[k];
      var x := r.from;
      while x <= r.to
        invariant r.from <= x && (x <= r.to + 1 || x == r.from)
        invariant forall j :: 0 <= j < states.Length ==>
            states[j] == (0 < j && (Covered(ranges[..k], j) || r.from <= j < x))
        decreases r.to - x
      {
        if x > 0 && x < states.Length {
          states[x] := true;
        }
        x := x + 1;
      }
      CoveredSnoc(ranges, k);
      k := k + 1;
    }
    assert ranges[..k] == ranges;
  }

  lemma CoveredSnoc(ranges: seq<Range>, k: nat)
    requires k < |ranges|
    ensures forall j :: Covered(ranges[..k + 1], j) <==>
      Covered(ranges[..k], j) || ranges[k].from <= j <= ranges[k].to
  {
    forall j
      ensures Covered(ranges[..k + 1], j) <==>
        Covered(ranges[..k], j) || ranges[k].from <= j <= ranges[k].to
    {
      if Covered(ranges[..k + 1], j) {
        var m :| 0 <= m < k + 1 && ranges[..k + 1][m].from <= j <= ranges[..k + 1][m].to;
        if m < k {
          assert ranges[..k][m] == ranges[m];
        }
      }
      if Covered(ranges[..k], j) {
        var m :| 0 <= m < k && ranges[..k][m].from <= j <= ranges[..k][m].to;
        assert ranges[..k + 1][m] == ranges[m];
      }
      if ranges[k].from <= j <= ranges[k].to {
        assert ranges[..k + 1][k] == ranges[k];
      }
    }
  }

  /** As written, pixel 0 is never on, whatever the ranges say. */
  lemma PixelZeroNeverOn(ranges: seq<Range>, n: nat)
    requires 0 < n
    ensures !StatesFor(ranges, n)[0]
  {
  }

  /** A pixel inside the vector is on exactly when some range covers it (and it is not pixel 0). */
  lemma StatesForAt(ranges: seq<Range>, n: nat, i: int)
    requires 0 < i < n
    ensures StatesFor(ranges, n)[i] <==> exists r :: r in ranges && r.from <= i <= r.to
  {
    if StatesFor(ranges, n)[i] {
      var k :| 0 <= k < |ranges| && ranges[k].from <= i <= ranges[k].to;
      assert ranges[k] in ranges;
    }
    if r :| r in ranges && r.from <= i <= r.to {
      var k :| 0 <= k < |ranges| && ranges[k] == r;
    }
  }

  /** A reversed range (from > to) marks nothing. */
  lemma ReversedRangeMarksNothing(r: Range, n: nat)
    requires r.from > r.to
    ensures forall i :: 0 <= i < n ==> !StatesFor([r], n)[i]
  {
  }

  /** An empty range list turns every pixel off. */
  lemma NoRangesAllOff(n: nat)
    ensures forall i :: 0 <= i < n ==> !StatesFor([], n)[i]
  {
  }

  // ---------------------------------------------------------------------
  // The RGB buffer (Triple and Paint live in Bytes)

  /** The colour updateDdp gives pixel i of the state vector. */
  function StateColor(minPixel: int, states: seq<bool>, i: nat, colors: Colors): nat
    requires i < |states|
  {
    if i < minPixel then 0 else if states[i] then colors.on else colors.off
  }

  /** The buffer after the state loop has painted pixels 0 .. k-1. */
  function PaintStates(data: seq<byte>, minPixel: int, states: seq<bool>, k: nat, colors: Colors): (r: seq<byte>)
    requires k <= |states|
    ensures |r| == |data|
  {
    if k == 0 then data
    else Paint(PaintStates(data, minPixel, states, k - 1, colors), k - 1, StateColor(minPixel, states, k - 1, colors))
  }

  /** The blink overlay at curPixel, then the chase overlay at curPixel ± chaseOffset. */
  function Overlay(base: seq<byte>, curPixel: int, blinkOn: bool, chaseOffset: int, colors: Colors): (r: seq<byte>)
    ensures |r| == |base|
  {
    var blinked := if blinkOn then Paint(base, curPixel, colors.blink) else base;
    if chaseOffset != 0 then
      Paint(Paint(blinked, curPixel - chaseOffset, colors.chase), curPixel + chaseOffset, colors.chase)
    else blinked
  }

  /** The buffer updateDdp leaves: the state colours, then the overlays. */
  function Render(data: seq<byte>, minPixel: int, states: seq<bool>, curPixel: int,
                  blinkOn: bool, chaseOffset: int, colors: Colors): (r: seq<byte>)
    ensures |r| == |data|
  {
    Overlay(PaintStates(data, minPixel, states, |states|, colors), curPixel, blinkOn, chaseOffset, colors)
  }

  /** The colour Render shows at pixel p, or None when p keeps its old bytes. */
  function Shown(minPixel: int, states: seq<bool>, curPixel: int, blinkOn: bool,
                 chaseOffset: int, colors: Colors, p: nat): Wrappers.Option<nat>
  {
    if chaseOffset != 0 && (p == curPixel - chaseOffset || p == curPixel + chaseOffset) then Wrappers.Some(colors.chase)
    else if blinkOn && p == curPixel then Wrappers.Some(colors.blink)
    else if p < |states| then Wrappers.Some(StateColor(minPixel, states, p, colors))
    else Wrappers.None
  }

  /** updateDdp, with the colours as parameters. */
  method UpdateDdp(ddpData: array<byte>, minPixel: int, states: seq<bool>, curPixel: int,
                   blinkOn: bool, chaseOffset: int, colors: Colors)
    modifies ddpData
    ensures ddpData[..] == Render(old(ddpData[..]), minPixel, states, curPixel, blinkOn, chaseOffset, colors)
  {
    var i := 0;
    while i < |states|
      invariant 0 <= i <= |states|
      invariant ddpData[..] == PaintStates(old(ddpData[..]), minPixel, states, i, colors)
    {
      if i < minPixel {
        Set(ddpData, i, 0);
      } else if states[i] {
        Set(ddpData, i, colors.on);
      } else {
        Set(ddpData, i, colors.off);
      }
      i := i + 1;
    }
    SetOverlays(ddpData, curPixel, blinkOn, chaseOffset, colors);
  }

  /** The tail of updateDdp: the blink and chase writes. */
  method SetOverlays(ddpData: array<byte>, curPixel: int, blinkOn: bool, chaseOffset: int, colors: Colors)
    modifies ddpData
    ensures ddpData[..] == Overlay(old(ddpData[..]), curPixel, blinkOn, chaseOffset, colors)
  {
    if blinkOn {
      Set(ddpData, curPixel, colors.blink);
    }
    if chaseOffset != 0 {
      Chase(ddpData, curPixel, chaseOffset, colors.chase);
    }
  }

  /** The chase writes: the pixels chaseOffset before and after the current one. */
  method Chase(ddpData: array<byte>, curPixel: int, chaseOffset: int, color: nat)
    modifies ddpData
    ensures ddpData[..] == Paint(Paint(old(ddpData[..]), curPixel - chaseOffset, color), curPixel + chaseOffset, color)
  {
    Set(ddpData, curPixel - chaseOffset, color);
    Set(ddpData, curPixel + chaseOffset, color);
  }

  /** The `set` closure: write one pixel's bytes in place, dropping indices out of range. */
  method Set(ddpData: array<byte>, num: int, color: nat)
    modifies ddpData
    ensures ddpData[..] == Paint(old(ddpData[..]), num, color)
  {
    if num < 0 || num > ddpData.Length / 3 - 1 {
      return;
    }
    WriteTriple(ddpData, num, color);
  }

  lemma {:induction false} PaintStatesAt(data: seq<byte>, minPixel: int, states: seq<bool>, k: nat, colors: Colors, p: nat)
    requires k <= |states| && 3 * p + 3 <= |data|
    ensures Triple(PaintStates(data, minPixel, states, k, colors), p)
         == if p < k then Rgb(StateColor(minPixel, states, p, colors)) else Triple(data, p)
    decreases k
  {
    if k > 0 {
      PaintStatesAt(data, minPixel, states, k - 1, colors, p);
      PaintAt(PaintStates(data, minPixel, states, k - 1, colors), k - 1, StateColor(minPixel, states, k - 1, colors), p);
    }
  }

  lemma {:induction false} PaintStatesTail(data: seq<byte>, minPixel: int, states: seq<bool>, k: nat, colors: Colors)
    requires k <= |states|
    ensures PaintStates(data, minPixel, states, k, colors)[3 * (|data| / 3)..] == data[3 * (|data| / 3)..]
    decreases k
  {
    if k > 0 {
      PaintStatesTail(data, minPixel, states, k - 1, colors);
      PaintTail(PaintStates(data, minPixel, states, k - 1, colors), k - 1, StateColor(minPixel, states, k - 1, colors));
    }
  }

  /**
   * What a rendered pixel shows: the chase colour at curPixel ± offset,
   * else the blink colour at curPixel, else black below minPixel and the
   * on or off colour by state; a pixel past the state vector and under no
   * overlay keeps its old bytes.
   */
  lemma RenderAt(data: seq<byte>, minPixel: int, states: seq<bool>, curPixel: int,
                 blinkOn: bool, chaseOffset: int, colors: Colors, p: nat)
    requires 3 * p + 3 <= |data|
    ensures var shown := Shown(minPixel, states, curPixel, blinkOn, chaseOffset, colors, p);
            Triple(Render(data, minPixel, states, curPixel, blinkOn, chaseOffset, colors), p)
            == if shown.Some? then Rgb(shown.value) else Triple(data, p)
  {
    var base := PaintStates(data, minPixel, states, |states|, colors);
    PaintStatesAt(data, minPixel, states, |states|, colors, p);
    OverlayAt(base, curPixel, blinkOn, chaseOffset, colors, p);
  }

  lemma OverlayAt(base: seq<byte>, curPixel: int, blinkOn: bool, chaseOffset: int, colors: Colors, p: nat)
    requires 3 * p + 3 <= |base|
    ensures Triple(Overlay(base, curPixel, blinkOn, chaseOffset, colors), p)
         == if chaseOffset != 0 && (p == curPixel - chaseOffset || p == curPixel + chaseOffset) then Rgb(colors.chase)
            else if blinkOn && p == curPixel then Rgb(colors.blink)
            else Triple(base, p)
  {
    var blinked := Blinked(base, curPixel, blinkOn, colors, p);
    if chaseOffset != 0 {
      var chased := Chased(blinked, curPixel, chaseOffset, colors, p);
    }
  }

  /** The chase step of Overlay, and what it shows at pixel p. */
  lemma Chased(blinked: seq<byte>, curPixel: int, chaseOffset: int, colors: Colors, p: nat) returns (chased: seq<byte>)
    requires 3 * p + 3 <= |blinked|
    ensures chased == Paint(Paint(blinked, curPixel - chaseOffset, colors.chase), curPixel + chaseOffset, colors.chase)
    ensures Triple(chased, p)
         == if p == curPixel - chaseOffset || p == curPixel + chaseOffset then Rgb(colors.chase) else Triple(blinked, p)
  {
    var once := Paint(blinked, curPixel - chaseOffset, colors.chase);
    PaintAt(blinked, curPixel - chaseOffset, colors.chase, p);
    PaintAt(once, curPixel + chaseOffset, colors.chase, p);
    chased := Paint(once, curPixel + chaseOffset, colors.chase);
  }

  /** The blink step of Overlay, and what it shows at pixel p. */
  lemma Blinked(base: seq<byte>, curPixel: int, blinkOn: bool, colors: Colors, p: nat) returns (blinked: seq<byte>)
    requires 3 * p + 3 <= |base|
    ensures blinked == if blinkOn then Paint(base, curPixel, colors.blink) else base
    ensures |blinked| == |base|
    ensures Triple(blinked, p) == if blinkOn && p == curPixel then Rgb(colors.blink) else Triple(base, p)
  {
    blinked := if blinkOn then Paint(base, curPixel, colors.blink) else base;
    if blinkOn {
      PaintAt(base, curPixel, colors.blink, p);
    }
  }

  /** Bytes after the last whole triple are never written. */
  lemma RenderTail(data: seq<byte>, minPixel: int, states: seq<bool>, curPixel: int,
                   blinkOn: bool, chaseOffset: int, colors: Colors)
    ensures Render(data, minPixel, states, curPixel, blinkOn, chaseOffset, colors)[3 * (|data| / 3)..]
         == data[3 * (|data| / 3)..]
  {
    var base := PaintStates(data, minPixel, states, |states|, colors);
    PaintStatesTail(data, minPixel, states, |states|, colors);
    OverlayTail(base, curPixel, blinkOn, chaseOffset, colors);
  }

  lemma OverlayTail(base: seq<byte>, curPixel: int, blinkOn: bool, chaseOffset: int, colors: Colors)
    ensures Overlay(base, curPixel, blinkOn, chaseOffset, colors)[3 * (|base| / 3)..] == base[3 * (|base| / 3)..]
  {
    var blinked := if blinkOn then Paint(base, curPixel, colors.blink) else base;
    if blinkOn {
      PaintKeepsTail(base, curPixel, colors.blink, base);
    }
    if chaseOffset != 0 {
      var chased := Paint(blinked, curPixel - chaseOffset, colors.chase);
      PaintKeepsTail(blinked, curPixel - chaseOffset, colors.chase, base);
      PaintKeepsTail(chased, curPixel + chaseOffset, colors.chase, base);
    }
  }

  /** Painting a buffer whose tail past the last whole triple is base's keeps that tail. */
  lemma PaintKeepsTail(data: seq<byte>, num: int, color: nat, base: seq<byte>)
    requires |data| == |base| && data[3 * (|base| / 3)..] == base[3 * (|base| / 3)..]
    ensures Paint(data, num, color)[3 * (|base| / 3)..] == base[3 * (|base| / 3)..]
  {
    PaintTail(data, num, color);
  }

  // ---------------------------------------------------------------------
  // Animation state machines

  /** Chaser.Inc as a function of the size and the offset. */
  function ChaseStep(size: int, offset: int): int
  {
    if offset - 1 < 0 then size * 2 else offset - 1
  }

  /** n chaser steps. */
  function ChaseSteps(size: int, offset: int, n: nat): int
    decreases n
  {
    if n == 0 then offset else ChaseSteps(size, ChaseStep(size, offset), n - 1)
  }

  /** From offset o, o steps reach 0, and one more wraps to 2·size. */
  lemma {:induction false} ChaseCountsDown(size: nat, o: nat)
    ensures ChaseSteps(size, o, o) == 0
    ensures ChaseSteps(size, o, o + 1) == 2 * size
  {
    if o > 0 {
      ChaseCountsDown(size, o - 1);
    }
  }

  lemma {:induction false} ChaseStepsAdd(size: int, o: int, m: nat, n: nat)
    ensures ChaseSteps(size, o, m + n) == ChaseSteps(size, ChaseSteps(size, o, m), n)
    decreases m
  {
    if m > 0 {
      ChaseStepsAdd(size, ChaseStep(size, o), m - 1, n);
    }
  }

  /** The chaser is periodic: 2·size + 1 steps bring any offset in range back to itself. */
  lemma ChasePeriod(size: nat, o: nat)
    requires o <= 2 * size
    ensures ChaseSteps(size, o, 2 * size + 1) == o
  {
    ChaseCountsDown(size, o);
    ChaseStepsAdd(size, o, o + 1, 2 * size - o);
    ChaseCountsDown(size, 2 * size);
    ChaseStepsAdd(size, 2 * size, 2 * size - o, o);
    ChaseBack(size, 2 * size, 2 * size - o);
  }

  /** While it stays non-negative, stepping only decrements. */
  lemma {:induction false} ChaseBack(size: int, o: int, m: nat)
    requires m <= o
    ensures ChaseSteps(size, o, m) == o - m
    decreases m
  {
    if m > 0 {
      ChaseBack(size, o - 1, m - 1);
    }
  }

  class Chaser {
    const size: int
    var offset: int
    var mode: ActionMode

    ghost predicate Valid()
      reads this
    {
      0 <= size && 0 <= offset <= 2 * size
    }

    /** &Chaser{Size: size}: offset 0, mode unknown. */
    constructor (size: nat)
      ensures Valid() && this.size == size && offset == 0 && mode == Unknown
    {
      this.size := size;
      offset := 0;
      mode := Unknown;
    }

    /** Decrement the offset, wrapping to 2·Size below zero. */
    method Inc()
      requires Valid()
      modifies this
      ensures Valid()
      ensures offset == ChaseStep(size, old(offset)) && mode == old(mode)
    {
      var o := offset - 1;
      if o < 0 {
        o := size * 2;
      }
      offset := o;
    }

    method SetMode(mode: ActionMode)
      modifies this
      ensures this.mode == mode && offset == old(offset)
    {
      this.mode := mode;
    }

    /** Half the offset in find mode, 0 in every other mode. */
    function CurOffset(): (r: int)
      reads this
      requires Valid()
      ensures 0 <= r <= size
      ensures mode != Find ==> r == 0
      ensures mode == Find ==> 2 * r <= offset <= 2 * r + 1
    {
      if mode == Find then offset / 2 else 0
    }
  }

  /** Blinker.Inc as a function of the state. */
  function BlinkStep(state: nat): nat
  {
    (state + 1) % 4
  }

  function BlinkSteps(state: nat, n: nat): nat
    decreases n
  {
    if n == 0 then state else BlinkSteps(BlinkStep(state), n - 1)
  }

  /** From state 0 the blinker shows on, on, off, off and is back at 0 after four steps. */
  lemma BlinkPattern()
    ensures BlinkSteps(0, 1) == 1 && BlinkSteps(0, 2) == 2 && BlinkSteps(0, 3) == 3
    ensures BlinkSteps(0, 4) == 0
    ensures BlinkSteps(0, 1) < 2 && !(BlinkSteps(0, 2) < 2) && !(BlinkSteps(0, 3) < 2)
  {
  }

  /** Any state below 4 comes back after four steps. */
  lemma BlinkPeriod(s: nat)
    requires s < 4
    ensures BlinkSteps(s, 4) == s
  {
  }

  class Blinker {
    var state: nat

    ghost predicate Valid()
      reads this
    {
      state < 4
    }

    constructor ()
      ensures Valid() && state == 0
    {
      state := 0;
    }

    method Inc()
      requires Valid()
      modifies this
      ensures Valid() && state == BlinkStep(old(state))
    {
      state := (state + 1) % 4;
    }

    /** On for the first two of every four states. */
    function CurState(): (r: bool)
      reads this
      ensures Valid() ==> (r <==> state == 0 || state == 1)
    {
      state < 2
    }
  }

  // ---------------------------------------------------------------------
  // The controller

  /** DDPState: the connection, the destination and the pixel buffer. */
  class DdpState {
    const conn: DdpNet.DdpConn
    const addr: DdpNet.Addr
    const numPixels: int
    const data: array<byte>

    /** newDDPState: a zero buffer of numPixels·3 bytes. */
    constructor (conn: DdpNet.DdpConn, addr: DdpNet.Addr, numPixels: nat)
      ensures this.conn == conn && this.addr == addr && this.numPixels == numPixels
      ensures fresh(data) && data.Length == numPixels * 3
      ensures forall i :: 0 <= i < data.Length ==> data[i] == 0
    {
      this.conn := conn;
      this.addr := addr;
      this.numPixels := numPixels;
      data := new byte[numPixels * 3](_ => 0);
    }
  }

  /** The state ControlPixels keeps between events. */
  class Controller {
    const ddp: DdpState
    const minPixel: int
    const colors: Colors
    const states: array<bool>
    const chaser: Chaser
    const blinker: Blinker
    var curPixel: int

    ghost predicate Valid()
      reads this, ddp, chaser, blinker, ddp.conn
    {
      ddp.data.Length == ddp.numPixels * 3 && states.Length == ddp.numPixels
      && ddp.data.Length <= Two32
      && chaser.Valid() && blinker.Valid() && ddp.conn.Valid()
    }

    /** The setup part of ControlPixels. */
    constructor (conn: DdpNet.DdpConn, addr: DdpNet.Addr, minPixel: int, maxPixel: int, colors: Colors)
      requires -1 <= maxPixel && (maxPixel + 1) * 3 <= Two32 && conn.Valid()
      ensures Valid() && fresh(ddp) && fresh(ddp.data) && fresh(states)
      ensures ddp.conn == conn && ddp.addr == addr && ddp.numPixels == maxPixel + 1
      ensures ddp.data[..] == seq((maxPixel + 1) * 3, _ => 0)
      ensures states[..] == seq(maxPixel + 1, _ => false)
      ensures curPixel == 0 && chaser.size == 5 && chaser.offset == 0 && blinker.state == 0
    {
      ddp := new DdpState(conn, addr, maxPixel + 1);
      this.minPixel := minPixel;
      this.colors := colors;
      curPixel := 0;
      states := new bool[maxPixel + 1](_ => false);
      chaser := new Chaser(5);
      blinker := new Blinker();
    }

    /** An update request: new current pixel and mode, then states and buffer recomputed. */
    method OnUpdate(curLight: int, mode: string, onRanges: seq<Range>)
      requires Valid()
      modifies this, chaser, states, ddp.data
      ensures Valid()
      ensures curPixel == curLight && chaser.mode == ParseMode(mode)
      ensures chaser.offset == old(chaser.offset) && blinker.state == old(blinker.state)
      ensures states[..] == StatesFor(onRanges, states.Length)
      ensures ddp.data[..] == Render(old(ddp.data[..]), minPixel, states[..], curPixel,
                                     blinker.state < 2, chaser.CurOffset(), colors)
    {
      curPixel := curLight;
      chaser.SetMode(ParseMode(mode));
      UpdateStates(onRanges, states);
      var blinkOn := blinker.CurState();
      var chaseOffset := chaser.CurOffset();
      UpdateDdp(ddp.data, minPixel, states[..], curPixel, blinkOn, chaseOffset, colors);
    }

    /** An animation tick: step the chaser and the blinker, then re-render. */
    method OnAnimTick()
      requires Valid()
      modifies chaser, blinker, ddp.data
      ensures Valid()
      ensures chaser.offset == ChaseStep(chaser.size, old(chaser.offset)) && chaser.mode == old(chaser.mode)
      ensures blinker.state == BlinkStep(old(blinker.state))
      ensures ddp.data[..] == Render(old(ddp.data[..]), minPixel, states[..], curPixel,
                                     blinker.state < 2, chaser.CurOffset(), colors)
    {
      chaser.Inc();
      blinker.Inc();
      var blinkOn := blinker.CurState();
      var chaseOffset := chaser.CurOffset();
      UpdateDdp(ddp.data, minPixel, states[..], curPixel, blinkOn, chaseOffset, colors);
    }

    /** An output tick: send the buffer and ignore the error. */
    method OnDdpTick()
      requires Valid()
      modifies ddp.conn
      ensures Valid()
      ensures var o := DdpNet.Run(ddp.data[..], ddp.conn.maxChansPerPacket, 0, old(ddp.conn.seqNo), old(ddp.conn.budget));
              ddp.conn.sent == old(ddp.conn.sent) + DdpNet.ToDst(o.sent, ddp.addr) && ddp.conn.seqNo == o.seqNo
    {
      var _ := ddp.conn.SetPixels(ddp.data[..], ddp.addr);
    }
  }

  /**
   * After an update, every pixel at or above minPixel that is not under an
   * overlay shows the on colour when some range covers it (pixel 0 aside)
   * and the off colour otherwise.
   */
  lemma UpdateShowsStates(data: seq<byte>, minPixel: int, ranges: seq<Range>, n: nat, curPixel: int,
                          blinkOn: bool, chaseOffset: int, colors: Colors, p: nat)
    requires |data| == 3 * n && p < n && minPixel <= p
    requires !(blinkOn && p == curPixel)
    requires chaseOffset == 0 || (p != curPixel - chaseOffset && p != curPixel + chaseOffset)
    ensures Triple(Render(data, minPixel, StatesFor(ranges, n), curPixel, blinkOn, chaseOffset, colors), p)
         == Rgb(if 0 < p && Covered(ranges, p) then colors.on else colors.off)
  {
    RenderAt(data, minPixel, StatesFor(ranges, n), curPixel, blinkOn, chaseOffset, colors, p);
  }
}
