/**
 * The Go DDP (Distributed Display Protocol) sender: a packet with a 4-byte header,
 * a 32-bit offset, a 16-bit length and a body, and a connection that numbers
 * packets 1..15 and splits a channel buffer into frames of at most
 * maxChansPerPacket bytes, the last one flagged "push".
 */
module DdpNet {
  import opened Bytes

  const IdxFlags: nat := 0
  const IdxSeq: nat := 1
  const IdxType: nat := 2
  const IdxId: nat := 3

  const FlagsVer1: byte := 0x40
  const FlagsQuery: byte := 0x02
  const FlagsPush: byte := 0x01
  const IdStatus: byte := 251

  /** The largest sequence number before it wraps back to 1. */
  const MaxSeq: int := 15

  /** A UDP destination; the model only carries it along. */
  datatype Addr = Addr(host: string, port: int)

  /** One datagram handed to the socket. */
  datatype Datagram = Datagram(data: seq<byte>, dst: Addr)

  /**
   * The bytes of a packet on the wire: the header as is, then the offset and the
   * length in network byte order, then the body.
   */
  function Frame(hdr: seq<byte>, dOff: nat, dLen: nat, body: seq<byte>): (r: seq<byte>)
    requires |hdr| == 4 && dOff < Two32 && dLen < Two16
    ensures |r| == 10 + |body|
  {
    hdr + BigEndian32(dOff) + BigEndian16(dLen) + body
  }

  /** A frame is the header, then the offset and the length read most significant byte first, then the body. */
  lemma FrameLayout(hdr: seq<byte>, dOff: nat, dLen: nat, body: seq<byte>)
    requires |hdr| == 4 && dOff < Two32 && dLen < Two16
    ensures var r := Frame(hdr, dOff, dLen, body);
            && r[..4] == hdr && r[10..] == body
            && FromBigEndian(r[4..8]) == dOff && FromBigEndian(r[8..10]) == dLen
  {
    var r := Frame(hdr, dOff, dLen, body);
    assert r[4..8] == BigEndian32(dOff);
    assert r[8..10] == BigEndian16(dLen);
    BigEndian32Decodes(dOff);
    BigEndian16Decodes(dLen);
  }

  /** The flags byte SetFlags stores: the version bit kept, the low six bits taken from f. */
  function FlagsByte(f: byte): (r: byte)
    ensures r / 64 == 1 && r % 64 == f % 64
  {
    FlagsVer1 + f % 64
  }

  /** The sequence number that follows s: numbers run 1..15 and then start again at 1. */
  function NextSeq(s: int): (r: int)
    ensures r <= MaxSeq && (0 <= s ==> 1 <= r)
  {
    if s + 1 > MaxSeq then 1 else s + 1
  }

  /** The sequence number after k calls of getSeq starting from s. */
  function SeqAfter(s: int, k: nat): int
    decreases k
  {
    if k == 0 then s else SeqAfter(NextSeq(s), k - 1)
  }

  /** From a number in 1..15, getSeq visits the numbers 1..15 in a cycle. */
  lemma {:induction false} SeqAfterCycles(s: int, k: nat)
    requires 1 <= s <= MaxSeq
    ensures SeqAfter(s, k) == (s - 1 + k) % MaxSeq + 1
    decreases k
  {
    if k > 0 {
      SeqAfterCycles(NextSeq(s), k - 1);
    }
  }

  /** The bytes of one data frame as makeDataFrame builds it. */
  function DataFrame(off: nat, chunk: seq<byte>, push: bool, seqNo: int): (r: seq<byte>)
    requires off < Two32 && |chunk| < Two16
    ensures |r| == 10 + |chunk|
  {
    var flags := if push then FlagsByte(FlagsPush) else FlagsVer1;
    Frame([flags, seqNo % 16, 1, 1], off, |chunk|, chunk)
  }

  /**
   * A data frame starts 0x41 when pushed and 0x40 otherwise, carries the low four
   * bits of its sequence number, data type 1 and id 1, then its offset and
   * length in network order, then the chunk.
   */
  lemma DataFrameLayout(off: nat, chunk: seq<byte>, push: bool, seqNo: int)
    requires off < Two32 && |chunk| < Two16
    ensures var r := DataFrame(off, chunk, push, seqNo);
            && r[0] == (if push then 0x41 else 0x40) && r[1] == seqNo % 16 && r[2] == 1 && r[3] == 1
            && FromBigEndian(r[4..8]) == off && FromBigEndian(r[8..10]) == |chunk| && r[10..] == chunk
  {
    var flags := if push then FlagsByte(FlagsPush) else FlagsVer1;
    FrameLayout([flags, seqNo % 16, 1, 1], off, |chunk|, chunk);
  }

  /** What one data frame says: its offset, its chunk of the buffer, the push flag and its sequence number. */
  datatype Chunk = Chunk(off: nat, data: seq<byte>, push: bool, seqNo: int)
  {
    predicate Fits() { off < Two32 && |data| < Two16 }

    function Encoding(): seq<byte>
      requires Fits()
    {
      DataFrame(off, data, push, seqNo)
    }
  }

  /**
   * The frames SetPixels sends for `chans`, starting at byte offset `off` with
   * sequence number `s`: chunks of at most `max` bytes, the last flagged push.
   */
  function DataFrames(chans: seq<byte>, max: nat, off: nat, s: int): (r: seq<Chunk>)
    requires 0 < max
    ensures |r| >= 1
    decreases |chans|
  {
    if |chans| <= max then [Chunk(off, chans, true, s)]
    else [Chunk(off, chans[..max], false, s)] + DataFrames(chans[max..], max, off + max, NextSeq(s))
  }

  /** The number of frames SetPixels sends for a buffer of n bytes. */
  function FrameCount(n: nat, max: nat): nat
    requires max > 0
    decreases n
  {
    if n <= max then 1 else 1 + FrameCount(n - max, max)
  }

  /** One frame for an empty buffer, otherwise n / max rounded up. */
  lemma {:induction false} FrameCountIsCeiling(n: nat, max: nat)
    requires max > 0
    ensures n == 0 ==> FrameCount(n, max) == 1
    ensures n > 0 ==> (FrameCount(n, max) - 1) * max < n <= FrameCount(n, max) * max
    decreases n
  {
    if n > max {
      var c := FrameCount(n - max, max);
      FrameCountIsCeiling(n - max, max);
      assert (c + 1) * max == c * max + max;
    }
  }

  lemma {:induction false} DataFramesCount(chans: seq<byte>, max: nat, off: nat, s: int)
    requires 0 < max
    ensures |DataFrames(chans, max, off, s)| == FrameCount(|chans|, max)
    decreases |chans|
  {
    if |chans| > max {
      DataFramesCount(chans[max..], max, off + max, NextSeq(s));
    }
  }

  /** k * max, as a sum, so that the proofs below stay linear. */
  function Stride(k: nat, max: nat): nat
  {
    if k == 0 then 0 else Stride(k - 1, max) + max
  }

  lemma {:induction false} StrideIsProduct(k: nat, max: nat)
    ensures Stride(k, max) == k * max
  {
    if k > 0 {
      StrideIsProduct(k - 1, max);
      assert k * max == (k - 1) * max + max;
    }
  }

  /**
   * Frame k of DataFrames carries bytes k*max .. k*max+max of the buffer at offset
   * off + k*max with sequence number SeqAfter(s, k), and only the last carries push.
   */
  lemma DataFrameAt(chans: seq<byte>, max: nat, off: nat, s: int, k: nat)
    requires 0 < max
    requires k < |DataFrames(chans, max, off, s)|
    ensures k * max <= |chans|
    ensures DataFrames(chans, max, off, s)[k] ==
      Chunk(off + k * max, chans[k * max .. Min(k * max + max, |chans|)],
            k == |DataFrames(chans, max, off, s)| - 1, SeqAfter(s, k))
  {
    DataFrameFrom(chans, max, off, s, k);
    StrideIsProduct(k, max);
  }

  lemma {:induction false} DataFrameFrom(chans: seq<byte>, max: nat, off: nat, s: int, k: nat)
    requires 0 < max
    requires k < |DataFrames(chans, max, off, s)|
    ensures Stride(k, max) <= |chans|
    ensures DataFrames(chans, max, off, s)[k] ==
      Chunk(off + Stride(k, max), chans[Stride(k, max) .. Min(Stride(k, max) + max, |chans|)],
            k == |DataFrames(chans, max, off, s)| - 1, SeqAfter(s, k))
    decreases k
  {
    var fs := DataFrames(chans, max, off, s);
    if k == 0 {
      assert chans[0 .. Min(max, |chans|)] == if |chans| <= max then chans else chans[..max];
    } else {
      DataFrameFrom(chans[max..], max, off + max, NextSeq(s), k - 1);
      DataFrameShift(chans, max, off, s, k);
    }
  }

  /** Frame k of a buffer is frame k - 1 of the buffer after its first max bytes. */
  lemma DataFrameShift(chans: seq<byte>, max: nat, off: nat, s: int, k: nat)
    requires 0 < max && 0 < k < |DataFrames(chans, max, off, s)|
    requires var rest, lo := chans[max..], Stride(k - 1, max);
             var tail := DataFrames(rest, max, off + max, NextSeq(s));
             && k - 1 < |tail| && lo <= |rest|
             && tail[k - 1] == Chunk(off + max + lo, rest[lo .. Min(lo + max, |rest|)], k - 1 == |tail| - 1, SeqAfter(NextSeq(s), k - 1))
    ensures Stride(k, max) <= |chans|
    ensures DataFrames(chans, max, off, s)[k] ==
      Chunk(off + Stride(k, max), chans[Stride(k, max) .. Min(Stride(k, max) + max, |chans|)],
            k == |DataFrames(chans, max, off, s)| - 1, SeqAfter(s, k))
  {
    var rest := chans[max..];
    var tail := DataFrames(rest, max, off + max, NextSeq(s));
    var lo := Stride(k - 1, max);
    var hi := Min(lo + max, |rest|);
    StrideShift(k, max);
    SliceOfDrop(chans, max, lo, hi);
  }

  lemma SliceOfDrop<T>(a: seq<T>, d: nat, lo: nat, hi: nat)
    requires d <= |a| && lo <= hi <= |a| - d
    ensures a[d..][lo..hi] == a[d + lo .. d + hi]
  {
  }

  lemma {:induction false} StrideShift(k: nat, max: nat)
    requires k > 0
    ensures Stride(k, max) == max + Stride(k - 1, max)
  {
  }

  function Min(a: int, b: int): int { if a < b then a else b }

  /** The chunks of the frames, in order. */
  function Payloads(frames: seq<Chunk>): seq<byte>
  {
    if |frames| == 0 then [] else frames[0].data + Payloads(frames[1..])
  }

  /** The frames' chunks, put back together, are exactly the buffer. */
  lemma {:induction false} PayloadsAreBuffer(chans: seq<byte>, max: nat, off: nat, s: int)
    requires 0 < max
    ensures Payloads(DataFrames(chans, max, off, s)) == chans
    decreases |chans|
  {
    var fs := DataFrames(chans, max, off, s);
    if |chans| <= max {
      assert fs[1..] == [];
    } else {
      PayloadsAreBuffer(chans[max..], max, off + max, NextSeq(s));
      assert fs[1..] == DataFrames(chans[max..], max, off + max, NextSeq(s));
      assert chans == chans[..max] + chans[max..];
    }
  }

  /** The datagrams carrying `frames` to `dst`. */
  predicate AllFit(frames: seq<Chunk>)
  {
    forall i :: 0 <= i < |frames| ==> frames[i].Fits()
  }

  function ToDst(frames: seq<Chunk>, dst: Addr): (r: seq<Datagram>)
    requires AllFit(frames)
    ensures |r| == |frames|
  {
    seq(|frames|, i requires 0 <= i < |frames| => Datagram(frames[i].Encoding(), dst))
  }

  lemma ToDstAppend(a: seq<Chunk>, b: seq<Chunk>, dst: Addr)
    requires AllFit(a) && AllFit(b)
    ensures AllFit(a + b) && ToDst(a + b, dst) == ToDst(a, dst) + ToDst(b, dst)
  {
    assert forall i :: 0 <= i < |a| ==> (a + b)[i] == a[i];
    assert forall i :: |a| <= i < |a + b| ==> (a + b)[i] == b[i - |a|];
  }

  /** Keeping the low eight bits and then the low four keeps the low four. */
  lemma LowNibble(s: int)
    ensures (s % 256) % 16 == s % 16
  {
    var q := s / 256;
    assert s == 256 * q + s % 256;
    assert s == 16 * (16 * q) + s % 256;
    ModMultiple(s % 256, 16 * q);
  }

  lemma ModMultiple(r: int, k: int)
    ensures (16 * k + r) % 16 == r % 16
  {
  }

  class DdpPacket {
    var hdr: seq<byte>
    var dOff: nat
    var dLen: nat
    var body: seq<byte>

    ghost predicate Valid()
      reads this
    {
      |hdr| == 4 && dOff < Two32 && dLen < Two16
    }

    /** newDDPPacket: version flag set, zero offset and length, a zeroed body. */
    constructor (dataLen: nat)
      ensures Valid()
      ensures hdr == [FlagsVer1, 0, 0, 0] && dOff == 0 && dLen == 0
      ensures body == seq(dataLen, _ => 0)
    {
      hdr := [FlagsVer1, 0, 0, 0];
      dOff := 0;
      dLen := 0;
      body := seq(dataLen, _ => 0);
    }

    method SetFlags(f: byte)
      requires Valid()
      modifies this
      ensures Valid()
      ensures hdr == old(hdr)[IdxFlags := FlagsByte(f)]
      ensures dOff == old(dOff) && dLen == old(dLen) && body == old(body)
    {
      hdr := hdr[IdxFlags := FlagsByte(f)];
    }

    /** Only the low four bits of the sequence number are kept. */
    method SetSeqNo(s: int)
      requires Valid()
      modifies this
      ensures Valid()
      ensures hdr == old(hdr)[IdxSeq := s % 16]
      ensures dOff == old(dOff) && dLen == old(dLen) && body == old(body)
    {
      LowNibble(s);
      hdr := hdr[IdxSeq := (s % 256) % 16];
    }

    method SetID(id: byte)
      requires Valid()
      modifies this
      ensures Valid()
      ensures hdr == old(hdr)[IdxId := id]
      ensures dOff == old(dOff) && dLen == old(dLen) && body == old(body)
    {
      hdr := hdr[IdxId := id];
    }

    method SetType(typ: byte)
      requires Valid()
      modifies this
      ensures Valid()
      ensures hdr == old(hdr)[IdxType := typ]
      ensures dOff == old(dOff) && dLen == old(dLen) && body == old(body)
    {
      hdr := hdr[IdxType := typ];
    }

    /**
     * Store the offset and the data; an offset outside 0..2^32-1 or data longer
     * than 0xffff bytes makes the Go code panic, reported here as `panics`, with
     * the packet untouched.
     */
    method SetData(off: int, d: seq<byte>) returns (panics: bool)
      requires Valid()
      modifies this
      ensures Valid()
      ensures panics <==> !(0 <= off < Two32 && |d| < Two16)
      ensures !panics ==> dOff == off && dLen == |d| && body == d
      ensures panics ==> dOff == old(dOff) && dLen == old(dLen) && body == old(body)
      ensures hdr == old(hdr)
    {
      if off < 0 || off > 0xffff_ffff {
        return true;
      }
      if |d| > 0xffff {
        return true;
      }
      dOff := off;
      dLen := |d|;
      body := d;
      return false;
    }

    /** The bytes Write puts on the writer (a bytes.Buffer, which never fails). */
    function Encoding(): (r: seq<byte>)
      requires Valid()
      reads this
      ensures |r| == 10 + |body|
    {
      Frame(hdr, dOff, dLen, body)
    }
  }

  /**
   * A DDP connection. Its socket (the Go `conn` packetWriter) is modelled by two
   * fields: the datagrams written so far, and how many more writes the socket
   * accepts before every write fails. One SetPixels call stops at its first
   * failed write, so this covers every outcome of a call.
   */
  class DdpConn {
    var sent: seq<Datagram>
    var budget: nat
    var seqNo: int
    var maxChansPerPacket: nat

    ghost predicate Valid()
      reads this
    {
      1 <= seqNo <= MaxSeq && 0 < maxChansPerPacket < Two16
    }

    /** newDDPConn: numbering starts at 1. NewDDPConn uses 1440 bytes per packet. */
    constructor (budget: nat, maxChansPerPacket: nat)
      requires 0 < maxChansPerPacket < Two16
      ensures Valid()
      ensures sent == [] && this.budget == budget
      ensures seqNo == 1 && this.maxChansPerPacket == maxChansPerPacket
    {
      sent := [];
      this.budget := budget;
      seqNo := 1;
      this.maxChansPerPacket := maxChansPerPacket;
    }

    method GetSeq() returns (s: int)
      requires Valid()
      modifies this
      ensures Valid()
      ensures s == old(seqNo) && seqNo == NextSeq(old(seqNo))
      ensures sent == old(sent) && budget == old(budget) && maxChansPerPacket == old(maxChansPerPacket)
    {
      s := seqNo;
      seqNo := seqNo + 1;
      if seqNo > MaxSeq {
        seqNo := 1;
      }
    }

    method MakeDataFrame(off: nat, chans: seq<byte>, push: bool) returns (p: DdpPacket)
      requires Valid() && off < Two32 && |chans| < Two16
      modifies this
      ensures Valid() && fresh(p) && p.Valid()
      ensures p.Encoding() == DataFrame(off, chans, push, old(seqNo))
      ensures seqNo == NextSeq(old(seqNo))
      ensures sent == old(sent) && budget == old(budget) && maxChansPerPacket == old(maxChansPerPacket)
    {
      p := new DdpPacket(|chans|);
      if push {
        p.SetFlags(FlagsPush);
      }
      var s := GetSeq();
      p.SetSeqNo(s);
      p.SetType(1);
      p.SetID(1);
      var panics := p.SetData(off, chans);
      assert !panics;
    }

    /** The socket's WriteTo: it takes the datagram while it still accepts writes. */
    method WriteTo(b: seq<byte>, addr: Addr) returns (ok: bool)
      modifies this
      ensures ok == (old(budget) > 0)
      ensures ok ==> sent == old(sent) + [Datagram(b, addr)] && budget == old(budget) - 1
      ensures !ok ==> sent == old(sent) && budget == old(budget)
      ensures seqNo == old(seqNo) && maxChansPerPacket == old(maxChansPerPacket)
    {
      if budget == 0 {
        return false;
      }
      sent := sent + [Datagram(b, addr)];
      budget := budget - 1;
      return true;
    }

    method SendPacket(p: DdpPacket, dst: Addr) returns (ok: bool)
      requires p.Valid()
      modifies this
      ensures ok == (old(budget) > 0)
      ensures ok ==> sent == old(sent) + [Datagram(p.Encoding(), dst)] && budget == old(budget) - 1
      ensures !ok ==> sent == old(sent) && budget == old(budget)
      ensures seqNo == old(seqNo) && maxChansPerPacket == old(maxChansPerPacket)
    {
      ok := WriteTo(p.Encoding(), dst);
    }

    /** One round of the SetPixels loop: build the frame (using up a sequence number) and hand it to the writer. */
    method SendFrame(off: nat, chunk: seq<byte>, last: bool, dst: Addr) returns (ok: bool)
      requires Valid() && Chunk(off, chunk, last, seqNo).Fits()
      modifies this
      ensures Valid()
      ensures maxChansPerPacket == old(maxChansPerPacket)
      ensures seqNo == NextSeq(old(seqNo))
      ensures ok == (old(budget) > 0)
      ensures ok ==> (sent == old(sent) + ToDst([Chunk(off, chunk, last, old(seqNo))], dst)
                      && budget == old(budget) - 1)
      ensures !ok ==> sent == old(sent) && budget == old(budget)
    {
      ghost var frame := Chunk(off, chunk, last, seqNo);
      var p := MakeDataFrame(off, chunk, last);
      ok := SendPacket(p, dst);
      assert ToDst([frame], dst) == [Datagram(frame.Encoding(), dst)];
    }

    /**
     * `whole` is what is left of the SetPixels loop after the frames `done`,
     * resumed on the bytes `rest` at byte offset `off`.
     */
    ghost predicate Resumes(whole: Outcome, done: seq<Chunk>, rest: seq<byte>, off: nat)
      reads this
    {
      && Valid() && off < Two32 && off + |rest| <= Two32
      && whole == Prefixed(done, Run(rest, maxChansPerPacket, off, seqNo, budget))
    }

    /** `whole` is the outcome of a finished SetPixels loop that sent the frames `done`. */
    ghost predicate Finished(whole: Outcome, done: seq<Chunk>, err: bool)
      reads this
    {
      Valid() && whole == Outcome(done, err, seqNo)
    }

    /**
     * One round of the SetPixels loop on the bytes not sent yet: the next frame
     * is the rest when it fits in one packet (and then carries push), otherwise
     * its first maxChansPerPacket bytes. `more` says that the loop goes on.
     */
    method SendNext(rest: seq<byte>, off: nat, dst: Addr, ghost start: seq<Datagram>,
                    ghost whole: Outcome, ghost done: seq<Chunk>)
      returns (more: bool, err: bool, ghost done': seq<Chunk>)
      requires Resumes(whole, done, rest, off)
      requires AllFit(done) && sent == start + ToDst(done, dst)
      modifies this
      ensures maxChansPerPacket == old(maxChansPerPacket)
      ensures AllFit(done') && sent == start + ToDst(done', dst)
      ensures more ==> |rest| > maxChansPerPacket && Resumes(whole, done', rest[maxChansPerPacket..], off + maxChansPerPacket)
      ensures !more ==> Finished(whole, done', err)
    {
      var max := maxChansPerPacket;
      var last := true;
      var chunk := rest;
      if |rest| > max {
        last := false;
        chunk := rest[..max];
      }
      ghost var s0, b0 := seqNo, budget;
      var ok := SendFrame(off, chunk, last, dst);
      if !ok {
        RunRefused(done, rest, max, off, s0);
        return false, true, done;
      }
      ghost var c := Chunk(off, chunk, last, s0);
      ToDstAppend(done, [c], dst);
      done' := done + [c];
      if last {
        RunLast(done, rest, max, off, s0, b0);
        return false, false, done';
      }
      RunStep(done, rest, max, off, s0, b0);
      return true, false, done';
    }

    /**
     * Send `chans` as Run(chans, maxChansPerPacket, 0, seqNo, ...) describes:
     * the frames of DataFrames up to the first write the writer refuses.
     */
    method SetPixels(chans: seq<byte>, dst: Addr) returns (err: bool)
      requires Valid() && |chans| <= Two32
      modifies this
      ensures Valid()
      ensures maxChansPerPacket == old(maxChansPerPacket)
      ensures var o := Run(chans, maxChansPerPacket, 0, old(seqNo), old(budget));
              sent == old(sent) + ToDst(o.sent, dst) && err == o.err && seqNo == o.seqNo
    {
      ghost var whole := Run(chans, maxChansPerPacket, 0, seqNo, budget);
      ghost var done: seq<Chunk> := [];
      assert whole == Prefixed(done, whole);
      var rest := chans;
      var off: nat := 0;
      var more := true;
      err := false;
      while more
        invariant maxChansPerPacket == old(maxChansPerPacket)
        invariant AllFit(done) && sent == old(sent) + ToDst(done, dst)
        invariant more ==> Resumes(whole, done, rest, off)
        invariant !more ==> Finished(whole, done, err)
        decreases more, |rest|
      {
        more, err, done := SendNext(rest, off, dst, old(sent), whole, done);
        if more {
          rest := rest[maxChansPerPacket..];
          off := off + maxChansPerPacket;
        }
      }
    }
  }

  /** What one SetPixels call does: the frames it hands to the writer, whether it fails, and the next sequence number. */
  datatype Outcome = Outcome(sent: seq<Chunk>, err: bool, seqNo: int)

  /** The outcome `o` after the frames `before` have already been sent. */
  function Prefixed(before: seq<Chunk>, o: Outcome): Outcome
  {
    Outcome(before + o.sent, o.err, o.seqNo)
  }

  /** The SetPixels loop from byte offset `off` with sequence number `s`, for a writer that accepts `budget` more writes. */
  function Run(rest: seq<byte>, max: nat, off: nat, s: int, budget: nat): (o: Outcome)
    requires 0 < max < Two16
    requires off < Two32 && off + |rest| <= Two32
    ensures AllFit(o.sent)
    decreases |rest|
  {
    var last := |rest| <= max;
    var chunk := if last then rest else rest[..max];
    if budget == 0 then Outcome([], true, NextSeq(s))
    else if last then Outcome([Chunk(off, chunk, true, s)], false, NextSeq(s))
    else
      var r := Run(rest[max..], max, off + max, NextSeq(s), budget - 1);
      Outcome([Chunk(off, chunk, false, s)] + r.sent, r.err, r.seqNo)
  }

  /** A refused write ends the loop with an error; the refused frame still used up its sequence number. */
  lemma RunRefused(done: seq<Chunk>, rest: seq<byte>, max: nat, off: nat, s: int)
    requires 0 < max < Two16
    requires off < Two32 && off + |rest| <= Two32
    ensures Prefixed(done, Run(rest, max, off, s, 0)) == Outcome(done, true, NextSeq(s))
  {
    assert done + [] == done;
  }

  /** An accepted last frame ends the loop without error. */
  lemma RunLast(done: seq<Chunk>, rest: seq<byte>, max: nat, off: nat, s: int, budget: nat)
    requires 0 < max < Two16
    requires off < Two32 && off + |rest| <= Two32
    requires budget > 0 && |rest| <= max
    ensures Prefixed(done, Run(rest, max, off, s, budget)) == Outcome(done + [Chunk(off, rest, true, s)], false, NextSeq(s))
  {
  }

  /** An accepted frame that is not the last is followed by the loop on the bytes after it. */
  lemma RunStep(done: seq<Chunk>, rest: seq<byte>, max: nat, off: nat, s: int, budget: nat)
    requires 0 < max < Two16
    requires off < Two32 && off + |rest| <= Two32
    requires budget > 0 && |rest| > max
    ensures Prefixed(done, Run(rest, max, off, s, budget))
         == Prefixed(done + [Chunk(off, rest[..max], false, s)], Run(rest[max..], max, off + max, NextSeq(s), budget - 1))
  {
    var c := Chunk(off, rest[..max], false, s);
    var r := Run(rest[max..], max, off + max, NextSeq(s), budget - 1);
    assert done + ([c] + r.sent) == (done + [c]) + r.sent;
  }

  /**
   * SetPixels fails exactly when the writer accepts fewer writes than there are
   * frames, and every frame it built (the refused one included) used up one
   * sequence number.
   */
  lemma {:induction false} RunOutcome(chans: seq<byte>, max: nat, off: nat, s: int, budget: nat)
    requires 0 < max < Two16
    requires off < Two32 && off + |chans| <= Two32
    ensures var n := |DataFrames(chans, max, off, s)|;
            var o := Run(chans, max, off, s, budget);
            && o.err == (budget < n)
            && o.seqNo == SeqAfter(s, if o.err then budget + 1 else n)
    decreases |chans|
  {
    if |chans| > max && budget > 0 {
      RunOutcome(chans[max..], max, off + max, NextSeq(s), budget - 1);
    }
  }

  /** SetPixels sends the frames of DataFrames in order, as many as the writer accepts. */
  lemma {:induction false} RunSendsDataFrames(chans: seq<byte>, max: nat, off: nat, s: int, budget: nat)
    requires 0 < max < Two16
    requires off < Two32 && off + |chans| <= Two32
    ensures var frames := DataFrames(chans, max, off, s);
            Run(chans, max, off, s, budget).sent == frames[..Min(|frames|, budget)]
    decreases |chans|
  {
    var frames := DataFrames(chans, max, off, s);
    if |chans| > max && budget > 0 {
      var tail := DataFrames(chans[max..], max, off + max, NextSeq(s));
      RunSendsDataFrames(chans[max..], max, off + max, NextSeq(s), budget - 1);
      assert frames == [frames[0]] + tail;
      var accepted := Min(|tail|, budget - 1);
      assert frames[..accepted + 1] == [frames[0]] + tail[..accepted];
    } else if budget > 0 {
      assert frames[..1] == frames;
    }
  }

  /** Every frame of a buffer that ends within 32-bit offsets fits its 32-bit offset and 16-bit length fields. */
  lemma {:induction false} DataFramesFit(chans: seq<byte>, max: nat, off: nat, s: int)
    requires 0 < max < Two16
    requires off < Two32 && off + |chans| <= Two32
    ensures forall i :: 0 <= i < |DataFrames(chans, max, off, s)| ==> DataFrames(chans, max, off, s)[i].Fits()
    decreases |chans|
  {
    var r := DataFrames(chans, max, off, s);
    if |chans| > max {
      var tail := DataFrames(chans[max..], max, off + max, NextSeq(s));
      DataFramesFit(chans[max..], max, off + max, NextSeq(s));
      assert r == [r[0]] + tail;
    }
  }

  lemma SeqAfterStep(s: int, k: nat)
    ensures SeqAfter(s, k + 1) == NextSeq(SeqAfter(s, k))
    decreases k
  {
    if k > 0 {
      SeqAfterStep(NextSeq(s), k - 1);
    }
  }

  /** The query packet of the Go test: query flag, status id, offset 0x01020304 and length 0x0506, no body. */
  method QueryStatusPacket() returns (bs: seq<byte>)
    ensures bs == [0x42, 0, 0, 251, 1, 2, 3, 4, 5, 6]
  {
    var p := new DdpPacket(0);
    p.SetFlags(FlagsQuery);
    p.SetID(IdStatus);
    p.dOff := 0x01020304;
    p.dLen := 0x0506;
    bs := p.Encoding();
    assert bs == [0x42, 0, 0, 251] + BigEndian32(0x01020304) + BigEndian16(0x0506);
  }

  /** Three bytes through a connection of five bytes per packet: one frame, pushed, at offset 0. */
  method SinglePacketExample(dst: Addr) returns (sent: seq<Datagram>)
    ensures sent == [Datagram([0x41, 1, 1, 1, 0, 0, 0, 0, 0, 3, 0x11, 0x22, 0x33], dst)]
  {
    var c := new DdpConn(1, 5);
    var chans: seq<byte> := [0x11, 0x22, 0x33];
    var err := c.SetPixels(chans, dst);
    sent := c.sent;
    var frames := DataFrames(chans, 5, 0, 1);
    RunSendsDataFrames(chans, 5, 0, 1, 1);
    assert frames == [Chunk(0, chans, true, 1)];
    assert frames[..1] == frames;
    assert sent == ToDst(frames, dst);
    assert ToDst(frames, dst) == [Datagram(frames[0].Encoding(), dst)];
    assert frames[0].Encoding() == [0x41, 1, 1, 1, 0, 0, 0, 0, 0, 3, 0x11, 0x22, 0x33] by {
      assert BigEndian32(0) == [0, 0, 0, 0] && BigEndian16(3) == [0, 3];
    }
  }

  /** Eight bytes through a connection of five bytes per packet: two frames, the second one pushed. */
  method MultiPacketExample(dst: Addr) returns (sent: seq<Datagram>)
    ensures sent == [
      Datagram([0x40, 1, 1, 1, 0, 0, 0, 0, 0, 5, 0x11, 0x22, 0x33, 0x44, 0x55], dst),
      Datagram([0x41, 2, 1, 1, 0, 0, 0, 5, 0, 3, 0x66, 0x77, 0x88], dst)]
  {
    var c := new DdpConn(2, 5);
    var chans: seq<byte> := [0x11, 0x22, 0x33, 0x44, 0x55, 0x66, 0x77, 0x88];
    var err := c.SetPixels(chans, dst);
    sent := c.sent;
    var frames := DataFrames(chans, 5, 0, 1);
    RunSendsDataFrames(chans, 5, 0, 1, 2);
    ExampleFrames(chans);
    assert frames[..2] == frames;
    assert sent == ToDst(frames, dst);
    assert ToDst(frames, dst) == [Datagram(frames[0].Encoding(), dst), Datagram(frames[1].Encoding(), dst)];
    ExampleFrameBytes();
  }

  lemma ExampleFrames(chans: seq<byte>)
    requires chans == [0x11, 0x22, 0x33, 0x44, 0x55, 0x66, 0x77, 0x88]
    ensures DataFrames(chans, 5, 0, 1) ==
      [Chunk(0, [0x11, 0x22, 0x33, 0x44, 0x55], false, 1), Chunk(5, [0x66, 0x77, 0x88], true, 2)]
  {
    assert chans[5..][..3] == chans[5..];
    assert chans[..5] == [0x11, 0x22, 0x33, 0x44, 0x55] && chans[5..] == [0x66, 0x77, 0x88];
  }

  lemma ExampleFrameBytes()
    ensures Chunk(0, [0x11, 0x22, 0x33, 0x44, 0x55], false, 1).Encoding()
         == [0x40, 1, 1, 1, 0, 0, 0, 0, 0, 5, 0x11, 0x22, 0x33, 0x44, 0x55]
    ensures Chunk(5, [0x66, 0x77, 0x88], true, 2).Encoding() == [0x41, 2, 1, 1, 0, 0, 0, 5, 0, 3, 0x66, 0x77, 0x88]
  {
    assert BigEndian32(0) == [0, 0, 0, 0] && BigEndian32(5) == [0, 0, 0, 5];
    assert BigEndian16(5) == [0, 5] && BigEndian16(3) == [0, 3];
  }
}
