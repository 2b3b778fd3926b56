/**
 * The C++ DDP sender of the automap tool. It cuts a channel buffer the way the
 * Go sender does, but sends nothing at all for an empty buffer, and it lays the
 * offset and the length into a packed header struct without byte swapping, so
 * they travel in the host's byte order.
 */
module AutomapDdp {
  import opened Bytes
  import DdpNet

  const DefaultPort: int := 4048
  const DefaultMaxChansPerPacket: int := 1440
  const Int32Max: int := 0x7fff_ffff

  /** The in-memory order of a multi-byte integer on the host that runs the sender. */
  datatype ByteOrder = LittleEndianHost | BigEndianHost

  /** DDPConn::Options: the pixel count and the packet size. */
  datatype Options = Options(numPixels: int, maxChansPerPacket: int)

  /** A uint32_t field as it lies in memory. */
  function HostOrder32(order: ByteOrder, v: nat): (r: seq<byte>)
    requires v < Two32
    ensures |r| == 4
  {
    if order == BigEndianHost then BigEndian32(v) else LittleEndian32(v)
  }

  /** A uint16_t field as it lies in memory. */
  function HostOrder16(order: ByteOrder, v: nat): (r: seq<byte>)
    requires v < Two16
    ensures |r| == 2
  {
    if order == BigEndianHost then BigEndian16(v) else LittleEndian16(v)
  }

  /** Reading a host-order field back in the same order. */
  function FromHostOrder(order: ByteOrder, bs: seq<byte>): nat
  {
    if order == BigEndianHost then FromBigEndian(bs) else FromLittleEndian(bs)
  }

  /**
   * The packet MakePacket builds for a chunk: flags 0x40, or 0x41 on the last
   * chunk; the sequence number as an unsigned char; data type 1; id 1; the offset
   * converted to uint32_t and the chunk size converted to uint16_t, both in host
   * order; then the chunk.
   */
  function Packet(order: ByteOrder, c: DdpNet.Chunk): (r: seq<byte>)
    ensures |r| == 10 + |c.data|
  {
    var flags: byte := if c.push then 0x41 else 0x40;
    [flags, c.seqNo % 256, 1, 1] + HostOrder32(order, c.off % Two32) + HostOrder16(order, |c.data| % Two16) + c.data
  }

  /**
   * The header of a packet carries the flags, the sequence number, type 1 and
   * id 1, then the offset and the chunk size (modulo the field widths) in host
   * order; the chunk follows verbatim.
   */
  lemma PacketLayout(order: ByteOrder, c: DdpNet.Chunk)
    ensures var r := Packet(order, c);
            && r[0] == (if c.push then 0x41 else 0x40) && r[1] == c.seqNo % 256 && r[2] == 1 && r[3] == 1
            && FromHostOrder(order, r[4..8]) == c.off % Two32
            && FromHostOrder(order, r[8..10]) == |c.data| % Two16
            && r[10..] == c.data
  {
    var r := Packet(order, c);
    assert r[4..8] == HostOrder32(order, c.off % Two32);
    assert r[8..10] == HostOrder16(order, |c.data| % Two16);
    if order == BigEndianHost {
      BigEndian32Decodes(c.off % Two32);
      BigEndian16Decodes(|c.data| % Two16);
    } else {
      LittleEndian32Decodes(c.off % Two32);
      LittleEndian16Decodes(|c.data| % Two16);
    }
  }

  /**
   * On a big-endian host the packet is byte for byte the frame the Go sender
   * builds for the same chunk (whose sequence number is below 16).
   */
  lemma BigEndianHostMatchesNet(c: DdpNet.Chunk)
    requires c.Fits() && 0 <= c.seqNo < 16
    ensures Packet(BigEndianHost, c) == c.Encoding()
  {
    var flags: byte := if c.push then 0x41 else 0x40;
    assert DdpNet.FlagsByte(DdpNet.FlagsPush) == 0x41;
    assert c.Encoding() == DdpNet.Frame([flags, c.seqNo % 16, 1, 1], c.off, |c.data|, c.data);
    assert c.seqNo % 256 == c.seqNo % 16 && c.off % Two32 == c.off && |c.data| % Two16 == |c.data|;
  }

  /**
   * On a little-endian host a frame at offset 1440 (the second packet of the
   * default size) carries bytes that a network-order reader takes for another
   * offset.
   */
  lemma LittleEndianHostDiffersFromNet()
    ensures var c := DdpNet.Chunk(1440, [0], true, 2);
            && Packet(LittleEndianHost, c) != c.Encoding()
            && FromBigEndian(Packet(LittleEndianHost, c)[4..8]) != 1440
  {
    var c := DdpNet.Chunk(1440, [0], true, 2);
    var r := Packet(LittleEndianHost, c);
    assert LittleEndian32(1440) == [160, 5, 0, 0];
    assert r[4..8] == [160, 5, 0, 0];
    assert c.Encoding()[4..8] == BigEndian32(1440);
    assert BigEndian32(1440) == [0, 0, 5, 160];
    assert FromBigEndian([160, 5, 0, 0]) == 2684682240 by {
      assert [160, 5, 0, 0][..3] == [160, 5, 0];
      assert [160, 5, 0][..2] == [160, 5];
      assert [160, 5][..1] == [160];
    }
  }

  /** The packets for a list of chunks, in order. */
  function Packets(order: ByteOrder, chunks: seq<DdpNet.Chunk>): (r: seq<seq<byte>>)
    ensures |r| == |chunks|
  {
    if |chunks| == 0 then [] else [Packet(order, chunks[0])] + Packets(order, chunks[1..])
  }

  lemma {:induction false} PacketsAppend(order: ByteOrder, a: seq<DdpNet.Chunk>, b: seq<DdpNet.Chunk>)
    ensures Packets(order, a + b) == Packets(order, a) + Packets(order, b)
  {
    if |a| > 0 {
      assert (a + b)[1..] == a[1..] + b;
      PacketsAppend(order, a[1..], b);
    } else {
      assert a + b == b;
    }
  }

  /**
   * The SetAll(chans) loop on the bytes `rest` not sent yet, from byte offset
   * `off` with sequence number `s`, for a socket that accepts `budget` more
   * sends: each round takes up to `max` bytes, and the round that empties the
   * span is the last; a failed send ends the loop with that error.
   */
  function Run(rest: seq<byte>, max: nat, off: nat, s: int, budget: nat): (o: DdpNet.Outcome)
    requires 0 < max
    decreases |rest|
  {
    if |rest| == 0 then DdpNet.Outcome([], false, s)
    else
      var n := DdpNet.Min(max, |rest|);
      if budget == 0 then DdpNet.Outcome([], true, DdpNet.NextSeq(s))
      else DdpNet.Prefixed([DdpNet.Chunk(off, rest[..n], n == |rest|, s)], Run(rest[n..], max, off + n, DdpNet.NextSeq(s), budget - 1))
  }

  /** An empty buffer sends no packet, succeeds and uses no sequence number. */
  lemma EmptyBufferSendsNothing(max: nat, off: nat, s: int, budget: nat)
    requires 0 < max
    ensures Run([], max, off, s, budget) == DdpNet.Outcome([], false, s)
  {
  }

  /**
   * A non-empty buffer is cut and numbered exactly as the Go sender cuts it,
   * and the two fail at the same send.
   */
  lemma {:induction false} SameCutsAsNet(chans: seq<byte>, max: nat, off: nat, s: int, budget: nat)
    requires 0 < max < Two16 && off < Two32 && off + |chans| <= Two32
    requires |chans| > 0
    ensures Run(chans, max, off, s, budget) == DdpNet.Run(chans, max, off, s, budget)
    decreases |chans|
  {
    if budget > 0 {
      if |chans| > max {
        SameCutsAsNet(chans[max..], max, off + max, DdpNet.NextSeq(s), budget - 1);
        assert DdpNet.Min(max, |chans|) == max;
      } else {
        assert chans[..|chans|] == chans;
        assert chans[|chans|..] == [];
      }
    }
  }

  /** When every send succeeds, the chunks put back together are the buffer. */
  lemma {:induction false} RunCoversBuffer(chans: seq<byte>, max: nat, off: nat, s: int, budget: nat)
    requires 0 < max
    ensures var o := Run(chans, max, off, s, budget);
            !o.err ==> DdpNet.Payloads(o.sent) == chans
    decreases |chans|
  {
    var o := Run(chans, max, off, s, budget);
    if |chans| > 0 && budget > 0 {
      var n := DdpNet.Min(max, |chans|);
      var r := Run(chans[n..], max, off + n, DdpNet.NextSeq(s), budget - 1);
      RunCoversBuffer(chans[n..], max, off + n, DdpNet.NextSeq(s), budget - 1);
      assert o.sent == [DdpNet.Chunk(off, chans[..n], n == |chans|, s)] + r.sent;
      assert o.sent[1..] == r.sent;
      assert chans == chans[..n] + chans[n..];
    }
  }

  /** Every chunk holds between 1 and `max` bytes. */
  predicate ChunksWithin(chunks: seq<DdpNet.Chunk>, max: nat)
  {
    forall i :: 0 <= i < |chunks| ==> 0 < |chunks[i].data| <= max
  }

  /** Every chunk sent holds between 1 and `max` bytes. */
  lemma {:induction false} RunChunkSizes(chans: seq<byte>, max: nat, off: nat, s: int, budget: nat)
    requires 0 < max
    ensures ChunksWithin(Run(chans, max, off, s, budget).sent, max)
    decreases |chans|
  {
    var o := Run(chans, max, off, s, budget);
    if |chans| > 0 && budget > 0 {
      var n := DdpNet.Min(max, |chans|);
      var r := Run(chans[n..], max, off + n, DdpNet.NextSeq(s), budget - 1);
      RunChunkSizes(chans[n..], max, off + n, DdpNet.NextSeq(s), budget - 1);
      assert o.sent == [DdpNet.Chunk(off, chans[..n], n == |chans|, s)] + r.sent;
      forall i | 0 <= i < |o.sent|
        ensures 0 < |o.sent[i].data| <= max
      {
        if i > 0 {
          assert o.sent[i] == r.sent[i - 1];
        }
      }
    }
  }

  lemma RunRefused(done: seq<DdpNet.Chunk>, rest: seq<byte>, max: nat, off: nat, s: int)
    requires 0 < max && |rest| > 0
    ensures DdpNet.Prefixed(done, Run(rest, max, off, s, 0)) == DdpNet.Outcome(done, true, DdpNet.NextSeq(s))
  {
    assert done + [] == done;
  }

  lemma RunStep(done: seq<DdpNet.Chunk>, rest: seq<byte>, max: nat, off: nat, s: int, budget: nat)
    requires 0 < max && |rest| > 0 && budget > 0
    ensures var n := DdpNet.Min(max, |rest|);
            (DdpNet.Prefixed(done, Run(rest, max, off, s, budget))
             == DdpNet.Prefixed(done + [DdpNet.Chunk(off, rest[..n], n == |rest|, s)],
                                Run(rest[n..], max, off + n, DdpNet.NextSeq(s), budget - 1)))
  {
    var n := DdpNet.Min(max, |rest|);
    var c := DdpNet.Chunk(off, rest[..n], n == |rest|, s);
    var r := Run(rest[n..], max, off + n, DdpNet.NextSeq(s), budget - 1);
    assert done + ([c] + r.sent) == (done + [c]) + r.sent;
  }

  /** The channel bytes of SetAll(color): every pixel's triple is the colour. */
  function Fill(numPixels: nat, color: int): (r: seq<byte>)
    ensures |r| == 3 * numPixels
  {
    if numPixels == 0 then [] else Fill(numPixels - 1, color) + Rgb(color)
  }

  /** Byte j of a filled buffer is byte j % 3 of the colour. */
  lemma {:induction false} FillAt(numPixels: nat, color: int, j: nat)
    requires j < 3 * numPixels
    ensures Fill(numPixels, color)[j] == Rgb(color)[j % 3]
  {
    if j < 3 * (numPixels - 1) {
      FillAt(numPixels - 1, color, j);
    }
  }

  /** The channel bytes of OnlyOne(idx, color): zero except the colour at pixel idx. */
  function OneLit(numPixels: nat, idx: nat, color: int): (r: seq<byte>)
    requires idx < numPixels
    ensures |r| == 3 * numPixels
  {
    seq(3 * idx, _ => 0) + Rgb(color) + seq(3 * (numPixels - idx - 1), _ => 0)
  }

  /** In OneLit, pixel idx has the colour and every other byte is zero. */
  lemma OneLitAt(numPixels: nat, idx: nat, color: int, j: nat)
    requires idx < numPixels && j < 3 * numPixels
    ensures OneLit(numPixels, idx, color)[j] == if 3 * idx <= j < 3 * idx + 3 then Rgb(color)[j - 3 * idx] else 0
  {
  }

  /**
   * DDPConn: the socket and address are modelled by the packets sent so far and
   * the number of further sends the socket accepts before every send fails.
   */
  class DdpConn {
    var sent: seq<seq<byte>>
    var budget: nat
    var seqNo: int
    const numPixels: int
    const maxChansPerPacket: int
    const order: ByteOrder

    ghost predicate Valid()
      reads this
    {
      1 <= seqNo <= DdpNet.MaxSeq && 0 < maxChansPerPacket && 0 <= numPixels && 3 * numPixels <= Int32Max
    }

    /** The private constructor Create ends with: numbering starts at 1. */
    constructor (budget: nat, options: Options, order: ByteOrder)
      requires 0 < options.maxChansPerPacket && 0 <= options.numPixels && 3 * options.numPixels <= Int32Max
      ensures Valid()
      ensures sent == [] && this.budget == budget && seqNo == 1
      ensures numPixels == options.numPixels && maxChansPerPacket == options.maxChansPerPacket && this.order == order
    {
      sent := [];
      this.budget := budget;
      seqNo := 1;
      numPixels := options.numPixels;
      maxChansPerPacket := options.maxChansPerPacket;
      this.order := order;
    }

    method GetSeq() returns (s: int)
      requires Valid()
      modifies this
      ensures Valid()
      ensures s == old(seqNo) && seqNo == DdpNet.NextSeq(old(seqNo))
      ensures sent == old(sent) && budget == old(budget)
    {
      s := seqNo;
      seqNo := seqNo + 1;
      if seqNo > 15 {
        seqNo := 1;
      }
    }

    method MakePacket(chans: seq<byte>, off: nat, last: bool) returns (packet: seq<byte>)
      requires Valid()
      modifies this
      ensures Valid()
      ensures packet == Packet(order, DdpNet.Chunk(off, chans, last, old(seqNo)))
      ensures seqNo == DdpNet.NextSeq(old(seqNo)) && sent == old(sent) && budget == old(budget)
    {
      var flags: byte := 0x40;
      if last {
        flags := 0x41;
      }
      var s := GetSeq();
      packet := [flags, s % 256, 1, 1] + HostOrder32(order, off % Two32) + HostOrder16(order, |chans| % Two16) + chans;
    }

    /** sendto: the socket takes the packet while it still accepts sends. */
    method SendPacket(packet: seq<byte>) returns (ok: bool)
      modifies this
      ensures ok == (old(budget) > 0)
      ensures ok ==> sent == old(sent) + [packet] && budget == old(budget) - 1
      ensures !ok ==> sent == old(sent) && budget == old(budget)
      ensures seqNo == old(seqNo)
    {
      if budget == 0 {
        return false;
      }
      sent := sent + [packet];
      budget := budget - 1;
      return true;
    }

    ghost predicate Resumes(whole: DdpNet.Outcome, done: seq<DdpNet.Chunk>, rest: seq<byte>, off: nat)
      reads this
    {
      Valid() && whole == DdpNet.Prefixed(done, Run(rest, maxChansPerPacket, off, seqNo, budget))
    }

    /**
     * One round of the SetAll(chans) loop on a non-empty span: cut off up to
     * maxChansPerPacket bytes (the last chunk when that empties the span), build
     * the packet and send it. `n` is the number of bytes cut off.
     */
    method SendNext(span: seq<byte>, off: nat, ghost start: seq<seq<byte>>,
                    ghost whole: DdpNet.Outcome, ghost done: seq<DdpNet.Chunk>)
      returns (ok: bool, n: nat, ghost done': seq<DdpNet.Chunk>)
      requires |span| > 0 && Resumes(whole, done, span, off)
      requires sent == start + Packets(order, done)
      modifies this
      ensures Valid() && sent == start + Packets(order, done')
      ensures n == DdpNet.Min(maxChansPerPacket, |span|)
      ensures ok ==> Resumes(whole, done', span[n..], off + n)
      ensures !ok ==> whole == DdpNet.Outcome(done', true, seqNo)
    {
      var packetSpan := span[..DdpNet.Min(maxChansPerPacket, |span|)];
      n := |packetSpan|;
      var last := |span[n..]| == 0;
      ghost var s0, b0 := seqNo, budget;
      var packet := MakePacket(packetSpan, off, last);
      ok := SendPacket(packet);
      if !ok {
        RunRefused(done, span, maxChansPerPacket, off, s0);
        return ok, n, done;
      }
      ghost var c := DdpNet.Chunk(off, packetSpan, last, s0);
      RunStep(done, span, maxChansPerPacket, off, s0, b0);
      PacketsAppend(order, done, [c]);
      done' := done + [c];
    }

    /**
     * The private SetAll(chans): send the buffer as Run describes, stopping at
     * the first failed send. `err` is the non-OK status.
     */
    method SetAllChans(chans: seq<byte>) returns (err: bool)
      requires Valid() && |chans| <= Int32Max
      modifies this
      ensures Valid()
      ensures var o := Run(chans, maxChansPerPacket, 0, old(seqNo), old(budget));
              sent == old(sent) + Packets(order, o.sent) && err == o.err && seqNo == o.seqNo
    {
      ghost var whole := Run(chans, maxChansPerPacket, 0, seqNo, budget);
      ghost var done: seq<DdpNet.Chunk> := [];
      assert whole == DdpNet.Prefixed(done, whole);
      var span := chans;
      var off: nat := 0;
      while |span| > 0
        invariant off + |span| == |chans|
        invariant sent == old(sent) + Packets(order, done)
        invariant Resumes(whole, done, span, off)
        decreases |span|
      {
        var ok, n;
        ok, n, done := SendNext(span, off, old(sent), whole, done);
        if !ok {
          return true;
        }
        span := span[n..];
        off := off + n;
      }
      assert done + [] == done;
      return false;
    }

    /** SetAll(color): every pixel gets the colour, and the buffer is sent. */
    method SetAllColor(color: int) returns (err: bool)
      requires Valid()
      modifies this
      ensures Valid()
      ensures var o := Run(Fill(numPixels, color), maxChansPerPacket, 0, old(seqNo), old(budget));
              sent == old(sent) + Packets(order, o.sent) && err == o.err && seqNo == o.seqNo
    {
      var chans := new byte[numPixels * 3](_ => 0);
      var i := 0;
      while i < numPixels * 3
        invariant 0 <= i <= numPixels * 3 && i % 3 == 0
        invariant forall j :: 0 <= j < i ==> chans[j] == Rgb(color)[j % 3]
        modifies chans
        decreases numPixels * 3 - i
      {
        chans[i] := Red(color);
        chans[i + 1] := Green(color);
        chans[i + 2] := Blue(color);
        i := i + 3;
      }
      forall j | 0 <= j < numPixels * 3
        ensures chans[j] == Fill(numPixels, color)[j]
      {
        FillAt(numPixels, color, j);
      }
      assert chans[..] == Fill(numPixels, color);
      err := SetAllChans(chans[..]);
    }

    /** OnlyOne(idx, color): a zero buffer with the colour at pixel idx, sent. */
    method OnlyOne(idx: int, color: int) returns (err: bool)
      requires Valid() && 0 <= idx < numPixels
      modifies this
      ensures Valid()
      ensures var o := Run(OneLit(numPixels, idx, color), maxChansPerPacket, 0, old(seqNo), old(budget));
              sent == old(sent) + Packets(order, o.sent) && err == o.err && seqNo == o.seqNo
    {
      var chans := new byte[numPixels * 3](_ => 0);
      var k := idx * 3;
      chans[k] := Red(color);
      k := k + 1;
      chans[k] := Green(color);
      k := k + 1;
      chans[k] := Blue(color);
      forall j | 0 <= j < numPixels * 3
        ensures chans[j] == OneLit(numPixels, idx, color)[j]
      {
        OneLitAt(numPixels, idx, color, j);
      }
      assert chans[..] == OneLit(numPixels, idx, color);
      err := SetAllChans(chans[..]);
    }
  }
}
