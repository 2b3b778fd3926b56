/*
 * The `lighter` tool: a terminal cursor over the pixels (arrow keys move it
 * by a step the '+' and '-' keys scale) and the controller loop that keeps
 * exactly the cursor's pixel lit at full white and re-sends the buffer on
 * every change and every tick.
 */
module Lighter {
  import opened Bytes
  import DdpNet

  // ---------------------------------------------------------------------
  // The channel buffer

  /** numPixels triples, pixel p's at 0xff and every other byte 0; p = -1 lights nothing. */
  function OneLit(numPixels: nat, p: int): (r: seq<byte>)
    ensures |r| == 3 * numPixels
  {
    seq(3 * numPixels, k => if k / 3 == p then 0xff else 0)
  }

  /** Pixel q shows full white when it is the lit pixel and is dark otherwise. */
  lemma OneLitAt(numPixels: nat, p: int, q: nat)
    requires q < numPixels
    ensures Triple(OneLit(numPixels, p), q) == if q == p then [0xff, 0xff, 0xff] else [0, 0, 0]
  {
    var r := OneLit(numPixels, p);
    assert r[3 * q] == r[3 * q + 1] == r[3 * q + 2] == if q == p then 0xff else 0 by {
      assert (3 * q) / 3 == (3 * q + 1) / 3 == (3 * q + 2) / 3 == q;
    }
  }

  /** Exactly one pixel is lit: the one named, when it is on the string. */
  lemma OneLitOnly(numPixels: nat, p: int)
    ensures forall q :: 0 <= q < numPixels ==> (Triple(OneLit(numPixels, p), q) != [0, 0, 0] <==> q == p)
  {
    forall q | 0 <= q < numPixels
      ensures Triple(OneLit(numPixels, p), q) != [0, 0, 0] <==> q == p
    {
      OneLitAt(numPixels, p, q);
    }
  }

  /** The buffer loop of DDPController: the channels, the pixel lit last, and the connection it sends on. */
  class DdpController {
    const conn: DdpNet.DdpConn
    const addr: DdpNet.Addr
    const numPixels: nat
    const chans: array<byte>
    var last: int

    /** The buffer lights exactly the pixel of the last event, or nothing before the first. */
    ghost predicate Valid()
      reads this, conn, chans
    {
      && conn.Valid()
      && chans.Length == 3 * numPixels <= Two32
      && -1 <= last < numPixels
      && chans[..] == OneLit(numPixels, last)
    }

    /** newDDPController plus the start of loop: a dark buffer and no pixel lit yet. */
    constructor (conn: DdpNet.DdpConn, addr: DdpNet.Addr, numPixels: nat)
      requires conn.Valid() && 3 * numPixels <= Two32
      ensures Valid() && fresh(chans)
      ensures this.conn == conn && this.addr == addr && this.numPixels == numPixels && last == -1
    {
      this.conn := conn;
      this.addr := addr;
      this.numPixels := numPixels;
      var c := new byte[3 * numPixels](_ => 0);
      chans := c;
      last := -1;
      new;
      assert chans[..] == OneLit(numPixels, -1);
    }

    /**
     * A pixel event: the last pixel's bytes go to 0 and the new one's to 0xff,
     * byte by byte, then the buffer is sent. A pixel off the string panics at
     * its first index.
     */
    method OnPixel(onPixel: int) returns (panicked: bool)
      requires Valid()
      modifies this, chans, conn
      ensures panicked <==> !(0 <= onPixel < numPixels)
      ensures !panicked ==> Valid() && last == onPixel && chans[..] == OneLit(numPixels, onPixel)
      ensures !panicked ==>
                var o := DdpNet.Run(chans[..], old(conn.maxChansPerPacket), 0, old(conn.seqNo), old(conn.budget));
                conn.sent == old(conn.sent) + DdpNet.ToDst(o.sent, addr)
    {
      for i := 0 to 3
        modifies chans
        invariant i > 0 ==> 0 <= onPixel < numPixels
        invariant forall k :: 0 <= k < chans.Length ==>
                    chans[k] == if k / 3 == onPixel && k % 3 < i then 0xff
                                else if k / 3 == last && k % 3 < i then 0
                                else if k / 3 == last then 0xff else 0
      {
        if last >= 0 {
          chans[last * 3 + i] := 0x00;
        }
        if onPixel < 0 || onPixel * 3 + i >= chans.Length {
          return true;
        }
        chans[onPixel * 3 + i] := 0xff;
      }
      assert chans[..] == OneLit(numPixels, onPixel);
      last := onPixel;
      var _ := conn.SetPixels(chans[..], addr);
      return false;
    }

    /** A tick: the unchanged buffer is sent again. */
    method OnTick()
      requires Valid()
      modifies conn
      ensures Valid() && chans[..] == old(chans[..])
      ensures var o := DdpNet.Run(chans[..], old(conn.maxChansPerPacket), 0, old(conn.seqNo), old(conn.budget));
              conn.sent == old(conn.sent) + DdpNet.ToDst(o.sent, addr)
    {
      var _ := conn.SetPixels(chans[..], addr);
    }
  }

  // ---------------------------------------------------------------------
  // The cursor

  /** The terminal events handleUI tells apart; everything else only redraws. */
  datatype Event = Escape | CtrlC | LeftKey | RightKey | RuneKey(r: char) | OtherEvent

  /** The cursor: the pixel shown and the step the arrow keys move by. */
  datatype Cursor = Cursor(num: int, skip: int)

  datatype Reaction = Quit | Continue(next: Cursor)

  function Max(a: int, b: int): int { if a < b then b else a }

  function Min(a: int, b: int): int { if a < b then a else b }

  /** One pass of the handleUI loop, with `top` the highest pixel Right may reach. */
  function React(ev: Event, c: Cursor, top: int): Reaction
  {
    match ev
    case Escape => Quit
    case CtrlC => Quit
    case LeftKey => Continue(Cursor(Max(0, c.num - c.skip), c.skip))
    case RightKey => Continue(Cursor(Min(top, c.num + c.skip), c.skip))
    case RuneKey(r) =>
      if r == 'q' then Quit
      else if r == '+' then Continue(Cursor(c.num, c.skip * 10))
      else if r == '-' then Continue(Cursor(c.num, Max(c.skip / 10, 1)))
      else Continue(c)
    case OtherEvent => Continue(c)
  }

  const Int64Min: int := -0x8000_0000_0000_0000
  const Int64Max: int := 0x7fff_ffff_ffff_ffff

  /** Go's `int` arithmetic: the result wrapped into 64 bits, two's complement. */
  function Wrap64(v: int): (r: int)
    ensures Int64Min <= r <= Int64Max
    ensures Int64Min <= v <= Int64Max ==> r == v
  {
    (v - Int64Min) % 0x1_0000_0000_0000_0000 + Int64Min
  }

  /** Go's `/` by 10: the quotient truncated toward zero. */
  function GoDiv10(v: int): int
  {
    if v >= 0 then v / 10 else -((-v) / 10)
  }

  /**
   * handleUI as written, on Go's 64-bit int: Right stops at numPixels, one
   * past the last pixel, and the sums and the step's product wrap.
   */
  function ReactAsWritten(ev: Event, c: Cursor, numPixels: int): Reaction
  {
    match ev
    case Escape => Quit
    case CtrlC => Quit
    case LeftKey => Continue(Cursor(Max(0, Wrap64(c.num - c.skip)), c.skip))
    case RightKey => Continue(Cursor(Min(numPixels, Wrap64(c.num + c.skip)), c.skip))
    case RuneKey(r) =>
      if r == 'q' then Quit
      else if r == '+' then Continue(Cursor(c.num, Wrap64(c.skip * 10)))
      else if r == '-' then Continue(Cursor(c.num, Max(GoDiv10(c.skip), 1)))
      else Continue(c)
    case OtherEvent => Continue(c)
  }

  /**
   * handleUI with Right stopping at the last pixel, numPixels - 1: no event
   * then moves the cursor off the string or the step below 1.
   */
  function HandleEvent(ev: Event, c: Cursor, numPixels: int): (r: Reaction)
    ensures InRange(c, numPixels) && r.Continue? ==> InRange(r.next, numPixels)
  {
    React(ev, c, numPixels - 1)
  }

  /** Right from the last pixel moves the cursor to numPixels, which the buffer loop then indexes past its end. */
  lemma RightPastTheEnd()
    ensures ReactAsWritten(RightKey, Cursor(9, 1), 10) == Continue(Cursor(10, 1))
    ensures !(0 <= ReactAsWritten(RightKey, Cursor(9, 1), 10).next.num < 10)
  {
  }

  function Pow10(k: nat): nat
  {
    if k == 0 then 1 else 10 * Pow10(k - 1)
  }

  lemma {:induction false} Pow10Grows(j: nat, k: nat)
    requires j <= k
    ensures Pow10(j) <= Pow10(k)
    decreases k
  {
    if j < k {
      Pow10Grows(j, k - 1);
    }
  }

  lemma Pow10Eighteen()
    ensures Pow10(18) == 1_000_000_000_000_000_000
  {
    assert Pow10(6) == 1_000_000;
    assert Pow10(12) == 1_000_000_000_000;
  }

  /** The cursor after k presses of '+', each handled as written. */
  function PlusesAsWritten(k: nat, c: Cursor, numPixels: int): Cursor
  {
    if k == 0 then c else ReactAsWritten(RuneKey('+'), PlusesAsWritten(k - 1, c, numPixels), numPixels).next
  }

  /** Up to 18 presses of '+' from the starting step 1 give the step 10^k exactly. */
  lemma {:induction false} PlusesExact(k: nat, numPixels: int)
    requires k <= 18
    ensures PlusesAsWritten(k, Cursor(0, 1), numPixels) == Cursor(0, Pow10(k))
  {
    if k > 0 {
      PlusesExact(k - 1, numPixels);
      Pow10Grows(k, 18);
      Pow10Eighteen();
    }
  }

  /**
   * The 19th press of '+' wraps the step past 2^63 - 1 to a negative
   * number, and Right then moves the cursor to a negative pixel, which the
   * controller's buffer loop indexes before its start (a panic).
   */
  lemma NineteenthPlusWraps(numPixels: int)
    requires numPixels > 0
    ensures var c := PlusesAsWritten(19, Cursor(0, 1), numPixels);
            && c == Cursor(0, Pow10(19) - 0x1_0000_0000_0000_0000) && c.skip < 0
            && ReactAsWritten(RightKey, c, numPixels).next.num < 0
  {
    PlusesExact(18, numPixels);
    Pow10Eighteen();
  }

  /** The cursor stays on the string and the step stays at least 1. */
  predicate InRange(c: Cursor, numPixels: int)
  {
    0 <= c.num < numPixels && c.skip >= 1
  }

  /**
   * The arrows move by exactly the step unless that would leave the string,
   * in which case they stop at its end; the other keys leave the pixel alone.
   */
  lemma ArrowsMoveBySkip(ev: Event, c: Cursor, numPixels: int)
    requires InRange(c, numPixels)
    ensures var r := HandleEvent(ev, c, numPixels);
            && (ev == LeftKey ==> r.Continue? && (r.next.num == c.num - c.skip || (r.next.num == 0 && c.num < c.skip)))
            && (ev == RightKey ==> r.Continue? && (r.next.num == c.num + c.skip || (r.next.num == numPixels - 1 && c.num + c.skip >= numPixels)))
            && (ev != LeftKey && ev != RightKey && r.Continue? ==> r.next.num == c.num)
            && (r.Continue? ==> r.next.skip == c.skip || ev.RuneKey?)
  {
  }

  /** '-' undoes '+': the step comes back unchanged. */
  lemma MinusUndoesPlus(c: Cursor, numPixels: int)
    requires c.skip >= 1
    ensures var up := HandleEvent(RuneKey('+'), c, numPixels);
            up.Continue? && up.next.skip == 10 * c.skip && HandleEvent(RuneKey('-'), up.next, numPixels) == Continue(c)
  {
  }

  /** Escape, Ctrl-C and 'q' end the loop, and nothing else does. */
  lemma QuitKeys(ev: Event, c: Cursor, numPixels: int)
    ensures HandleEvent(ev, c, numPixels).Quit? <==> ev == Escape || ev == CtrlC || ev == RuneKey('q')
  {
  }

  /** The cursor after the events, stopping at the first that quits. */
  function Session(events: seq<Event>, c: Cursor, numPixels: int): Cursor
  {
    if |events| == 0 then c
    else match HandleEvent(events[0], c, numPixels)
      case Quit => c
      case Continue(d) => Session(events[1..], d, numPixels)
  }

  lemma {:induction false} SessionInRange(events: seq<Event>, c: Cursor, numPixels: int)
    requires InRange(c, numPixels)
    ensures InRange(Session(events, c, numPixels), numPixels)
  {
    if |events| > 0 {
      if HandleEvent(events[0], c, numPixels).Continue? {
        SessionInRange(events[1..], HandleEvent(events[0], c, numPixels).next, numPixels);
      }
    }
  }

  /**
   * handleUI over a finite list of events (the terminal is not part of this
   * model), with the controller's pixel event handled as a direct call. The
   * controller is told only when the pixel changes, so its buffer always
   * lights the cursor's pixel, or nothing while the cursor has not moved.
   */
  method HandleUI(controller: DdpController, events: seq<Event>) returns (c: Cursor)
    requires controller.Valid() && controller.last == -1 && controller.numPixels > 0
    modifies controller, controller.chans, controller.conn
    ensures c == Session(events, Cursor(0, 1), controller.numPixels)
    ensures InRange(c, controller.numPixels)
    ensures controller.Valid()
    ensures controller.last == c.num || (controller.last == -1 && c.num == 0)
  {
    var numPixels := controller.numPixels;
    c := Cursor(0, 1);
    var i := 0;
    while i < |events|
      invariant 0 <= i <= |events|
      invariant InRange(c, numPixels)
      invariant Session(events, Cursor(0, 1), numPixels) == Session(events[i..], c, numPixels)
      invariant controller.Valid()
      invariant controller.last == c.num || (controller.last == -1 && c.num == 0)
    {
      var r := HandleEvent(events[i], c, numPixels);
      if r.Quit? {
        return;
      }
      if r.next.num != c.num {
        var panicked := controller.OnPixel(r.next.num);
        assert !panicked;
      }
      assert events[i..][1..] == events[i + 1..];
      c := r.next;
      i := i + 1;
    }
  }
}
