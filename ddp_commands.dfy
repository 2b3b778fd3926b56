/*
 * The `ddp` tool's on and off commands: the pixel-list argument ("all",
 * "a..b" or "n1,n2,..."), and the channel buffer each command hands to the
 * DDP connection.
 */
module DdpCommands {
  import opened Wrappers
  import opened Bytes
  import Text
  import DdpNet

  // ---------------------------------------------------------------------
  // Pixel lists

  /** Why parsePixelIDs rejects its argument. */
  datatype IdsError =
    | BadFrom(from: string)     // "invalid from value"
    | BadTo(to: string)         // "invalid to value"
    | BadOrder                  // "bad range; from >= to"
    | OutOfRange                // "from/to not in range"
    | BadPixel(part: string)    // "bad pixel"

  datatype Parsed = Pixels(ids: seq<nat>) | Rejected(why: IdsError)

  /**
   * The pattern ^([0-9]+)\.\.([0-9]+)$: two non-empty runs of digits around
   * "..", returned as the two submatches.
   */
  function MatchRange(s: string): (m: Option<(string, string)>)
    ensures m.Some? ==> && |m.value.0| > 0 && Text.AllDigits(m.value.0)
                        && |m.value.1| > 0 && Text.AllDigits(m.value.1)
                        && s == m.value.0 + ".." + m.value.1
  {
    var k := Text.FirstIndex(s, '.');
    if 0 < k && k + 2 < |s| && s[k + 1] == '.' && Text.AllDigits(s[..k]) && Text.AllDigits(s[k + 2..])
    then Some((s[..k], s[k + 2..]))
    else None
  }

  /** Every string the pattern describes matches, with its two digit runs as submatches. */
  lemma MatchRangeDigits(a: string, b: string)
    requires |a| > 0 && Text.AllDigits(a) && |b| > 0 && Text.AllDigits(b)
    ensures MatchRange(a + ".." + b) == Some((a, b))
  {
    var s := a + ".." + b;
    assert s == a + ['.'] + ("." + b);
    Text.FirstIndexAfter(a, '.', "." + b);
    assert s[..|a|] == a;
    assert s[|a| + 2..] == b;
  }

  /** from, from+1, ..., from+n-1. */
  function Upto(from: nat, n: nat): (r: seq<nat>)
    ensures |r| == n && forall i :: 0 <= i < n ==> r[i] == from + i
  {
    seq(n, i requires 0 <= i < n => from + i)
  }

  /** Every part parses as an unsigned 32-bit decimal number. */
  predicate AllParse(parts: seq<string>)
  {
    forall i :: 0 <= i < |parts| ==> Text.ParseUint32(parts[i]).Some?
  }

  function Values(parts: seq<string>): (r: seq<nat>)
    requires AllParse(parts)
    ensures |r| == |parts|
  {
    seq(|parts|, i requires 0 <= i < |parts| => Text.ParseUint32(parts[i]).value)
  }

  /** The comma form: each part in order, stopping at the first that does not parse. */
  function ParseAll(parts: seq<string>): Parsed
  {
    if |parts| == 0 then Pixels([])
    else match Text.ParseUint32(parts[0])
      case None => Rejected(BadPixel(parts[0]))
      case Some(v) =>
        match ParseAll(parts[1..])
        case Pixels(rest) => Pixels([v] + rest)
        case Rejected(e) => Rejected(e)
  }

  /** parsePixelIDs, with the three forms tried in order. */
  function PixelIds(ids: string, numPixels: nat): Parsed
  {
    if ids == "all" then Pixels(Upto(0, numPixels))
    else match MatchRange(ids)
      case Some((a, b)) =>
        (match Text.ParseUint32(a)
         case None => Rejected(BadFrom(a))
         case Some(from) =>
           match Text.ParseUint32(b)
           case None => Rejected(BadTo(b))
           case Some(to) =>
             if to < from then Rejected(BadOrder)
             else if from >= numPixels || to >= numPixels then Rejected(OutOfRange)
             else Pixels(Upto(from, to - from + 1)))
      case None => ParseAll(Text.Split(ids, ','))
  }

  /** When every part parses, the comma form yields their values, in order and with repeats. */
  lemma {:induction false} ParseAllOk(parts: seq<string>)
    requires AllParse(parts)
    ensures ParseAll(parts) == Pixels(Values(parts))
  {
    if |parts| > 0 {
      assert AllParse(parts[1..]) by {
        forall i | 0 <= i < |parts| - 1 ensures Text.ParseUint32(parts[1..][i]).Some? {
          assert parts[1..][i] == parts[i + 1];
        }
      }
      ParseAllOk(parts[1..]);
      assert Values(parts) == [Text.ParseUint32(parts[0]).value] + Values(parts[1..]);
    }
  }

  /** The comma form reports the first part that does not parse. */
  lemma {:induction false} ParseAllFirstBad(parts: seq<string>, k: nat)
    requires k < |parts| && Text.ParseUint32(parts[k]).None?
    requires forall j :: 0 <= j < k ==> Text.ParseUint32(parts[j]).Some?
    ensures ParseAll(parts) == Rejected(BadPixel(parts[k]))
  {
    if k > 0 {
      assert forall j :: 0 <= j < k - 1 ==> parts[1..][j] == parts[j + 1];
      ParseAllFirstBad(parts[1..], k - 1);
    }
  }

  /** The comma form fails exactly when some part does not parse. */
  lemma {:induction false} ParseAllFails(parts: seq<string>)
    ensures ParseAll(parts).Pixels? <==> AllParse(parts)
  {
    if |parts| > 0 {
      ParseAllFails(parts[1..]);
      assert forall i :: 0 <= i < |parts| - 1 ==> parts[1..][i] == parts[i + 1];
      assert AllParse(parts) <==> Text.ParseUint32(parts[0]).Some? && AllParse(parts[1..]);
    }
  }

  /** "all" names every pixel once, in order. */
  lemma AllForm(numPixels: nat)
    ensures var r := PixelIds("all", numPixels);
            r.Pixels? && |r.ids| == numPixels && forall i :: 0 <= i < numPixels ==> r.ids[i] == i
  {
  }

  /**
   * "a..b" with two digit runs names a, a+1, ..., b when a <= b < numPixels
   * (and b fits in 32 bits). Otherwise it is rejected, and the error says
   * which check failed first.
   */
  lemma RangeForm(a: string, b: string, numPixels: nat)
    requires |a| > 0 && Text.AllDigits(a) && |b| > 0 && Text.AllDigits(b)
    ensures var from, to := Text.DigitsValue(a), Text.DigitsValue(b);
            var r := PixelIds(a + ".." + b, numPixels);
            && (r.Pixels? <==> from <= to < numPixels && to < Two32)
            && (r.Pixels? ==> r.ids == Upto(from, to - from + 1))
            && (from >= Two32 ==> r == Rejected(BadFrom(a)))
            && (from < Two32 <= to ==> r == Rejected(BadTo(b)))
            && (to < from < Two32 ==> r == Rejected(BadOrder))
            && (from <= to < Two32 && numPixels <= to ==> r == Rejected(OutOfRange))
  {
    var s := a + ".." + b;
    assert s[|a|] == '.';
    assert s != "all";
    MatchRangeDigits(a, b);
  }

  /**
   * Any other argument is a comma-separated list: accepted exactly when every
   * part parses, giving the parts' values in order, with no check against the
   * number of pixels.
   */
  lemma CommaForm(ids: string, numPixels: nat)
    requires ids != "all" && MatchRange(ids).None?
    ensures var parts := Text.Split(ids, ',');
            var r := PixelIds(ids, numPixels);
            && (r.Pixels? <==> AllParse(parts))
            && (r.Pixels? ==> r.ids == Values(parts))
  {
    var parts := Text.Split(ids, ',');
    ParseAllFails(parts);
    if AllParse(parts) {
      ParseAllOk(parts);
    }
  }

  // The parser's table tests. The tests use ten pixels; the comma-form
  // cases hold for any number of pixels.

  lemma ExampleSpan()
    ensures PixelIds("2..4", 10) == Pixels([2, 3, 4])
  {
    SpanOf("2", "4", 10, 2, 4);
    assert "2..4" == "2" + ".." + "4";
    assert Upto(2, 3) == [2, 3, 4];
  }

  lemma SpanOf(a: string, b: string, numPixels: nat, from: nat, to: nat)
    requires |a| == 1 && |b| == 1 && Text.IsDigit(a[0]) && Text.IsDigit(b[0])
    requires Text.DigitValue(a[0]) == from <= to == Text.DigitValue(b[0]) < numPixels
    ensures PixelIds(a + ".." + b, numPixels) == Pixels(Upto(from, to - from + 1))
  {
    assert a[..0] == [] && b[..0] == [];
    RangeForm(a, b, numPixels);
  }

  lemma ExampleAll()
    ensures PixelIds("all", 10) == Pixels([0, 1, 2, 3, 4, 5, 6, 7, 8, 9])
  {
    AllForm(10);
  }

  lemma ExampleOne(numPixels: nat)
    ensures PixelIds("3", numPixels) == Pixels([3])
  {
    OnePart("3", numPixels);
  }

  lemma ExampleTwo(numPixels: nat)
    ensures PixelIds("3,9", numPixels) == Pixels([3, 9])
  {
    TwoParts("3", "9", numPixels);
    assert "3" + "," + "9" == "3,9";
    assert ParseAll(["3", "9"]) == Pixels([3, 9]);
  }

  lemma ExampleWord(numPixels: nat)
    ensures PixelIds("invalid", numPixels) == Rejected(BadPixel("invalid"))
  {
    OnePart("invalid", numPixels);
    assert !Text.IsDigit("invalid"[0]);
  }

  lemma ExampleTrailingComma(numPixels: nat)
    ensures PixelIds("3,", numPixels) == Rejected(BadPixel(""))
  {
    TwoParts("3", "", numPixels);
    assert "3" + "," + "" == "3,";
    ParseAllFirstBad(["3", ""], 1);
  }

  lemma ExampleSecondBad(numPixels: nat)
    ensures PixelIds("4,invalid", numPixels) == Rejected(BadPixel("invalid"))
  {
    assert ParseAll(["4", "invalid"]) == Rejected(BadPixel("invalid")) by {
      assert !Text.IsDigit("invalid"[0]);
      ParseAllFirstBad(["4", "invalid"], 1);
    }
    assert "4" + "," + "invalid" == "4,invalid";
    TwoParts("4", "invalid", numPixels);
  }

  /** A sign is neither a digit run nor part of a number. */
  lemma ExampleNegative(numPixels: nat)
    ensures PixelIds("-1..4", numPixels) == Rejected(BadPixel("-1..4"))
  {
    assert "-1..4" == "-1" + ['.'] + ".4";
    Text.FirstIndexAfter("-1", '.', ".4");
    assert !Text.IsDigit("-1"[0]);
    Text.FirstIndexAbsent("-1..4", ',');
    CommaCase("-1..4", ["-1..4"], numPixels);
  }

  lemma ExampleReversed(numPixels: nat)
    ensures PixelIds("4..1", numPixels) == Rejected(BadOrder)
  {
    assert "4..1" == "4" + ".." + "1";
    RangeForm("4", "1", numPixels);
  }

  lemma ExamplePastEnd()
    ensures PixelIds("8..15", 10) == Rejected(OutOfRange)
  {
    assert "8..15" == "8" + ".." + "15";
    assert "15"[..1] == "1";
    RangeForm("8", "15", 10);
  }

  lemma ExampleBeyond()
    ensures PixelIds("15..20", 10) == Rejected(OutOfRange)
  {
    assert "15..20" == "15" + ".." + "20";
    assert "20"[..1] == "2";
    RangeForm("15", "20", 10);
  }

  lemma CommaCase(ids: string, parts: seq<string>, numPixels: nat)
    requires ids != "all" && MatchRange(ids).None? && Text.Split(ids, ',') == parts
    ensures PixelIds(ids, numPixels) == ParseAll(parts)
  {
  }

  /** A word with no '.' and no ',' is a one-part list. */
  lemma OnePart(a: string, numPixels: nat)
    requires a != "all" && '.' !in a && ',' !in a
    ensures PixelIds(a, numPixels) == ParseAll([a])
  {
    Text.FirstIndexAbsent(a, '.');
    Text.FirstIndexAbsent(a, ',');
  }

  /** Two words with no '.' and no ',' joined by a comma are a two-part list. */
  lemma TwoParts(a: string, b: string, numPixels: nat)
    requires '.' !in a && '.' !in b && ',' !in a && ',' !in b
    ensures PixelIds(a + "," + b, numPixels) == ParseAll([a, b])
  {
    var s := a + "," + b;
    assert s[|a|] == ',';
    assert '.' !in s by {
      assert forall i :: 0 <= i < |s| ==> s[i] == if i < |a| then a[i] else if i == |a| then ',' else b[i - |a| - 1];
    }
    Text.FirstIndexAbsent(s, '.');
    assert s == Text.Join([a, b], [',']);
    Text.SplitJoin([a, b], ',');
  }

  /** parsePixelIDs, with its loops. */
  method ParsePixelIds(ids: string, numPixels: nat) returns (r: Parsed)
    ensures r == PixelIds(ids, numPixels)
  {
    if ids == "all" {
      var out := new nat[numPixels];
      for i := 0 to numPixels
        invariant forall j :: 0 <= j < i ==> out[j] == j
      {
        out[i] := i;
      }
      return Pixels(out[..]);
    }

    var m := MatchRange(ids);
    if m.Some? {
      var from := Text.ParseUint32(m.value.0);
      if from.None? {
        return Rejected(BadFrom(m.value.0));
      }
      var to := Text.ParseUint32(m.value.1);
      if to.None? {
        return Rejected(BadTo(m.value.1));
      }
      if to.value < from.value {
        return Rejected(BadOrder);
      }
      if from.value >= numPixels || to.value >= numPixels {
        return Rejected(OutOfRange);
      }
      var num := to.value - from.value + 1;
      var out := new nat[num];
      for i := 0 to num
        invariant forall j :: 0 <= j < i ==> out[j] == from.value + j
      {
        out[i] := from.value + i;
      }
      return Pixels(out[..]);
    }

    var parts := Text.Split(ids, ',');
    var out := new nat[|parts|];
    for i := 0 to |parts|
      invariant forall j :: 0 <= j < i ==> Text.ParseUint32(parts[j]).Some? && out[j] == Text.ParseUint32(parts[j]).value
    {
      var num := Text.ParseUint32(parts[i]);
      if num.None? {
        ParseAllFirstBad(parts, i);
        return Rejected(BadPixel(parts[i]));
      }
      out[i] := num.value;
    }
    ParseAllOk(parts);
    return Pixels(out[..]);
  }

  // ---------------------------------------------------------------------
  // The on and off commands

  /** The subcommands exit status, with a Go runtime panic as a fourth outcome. */
  datatype ExitStatus = ExitSuccess | ExitFailure | ExitUsageError | Panic

  /** What a command does before it reaches the connection: stop with a status, or send a buffer. */
  datatype Plan = Stop(status: ExitStatus) | Send(chans: seq<byte>)

  /** numPixels dark RGB triples. */
  function Dark(numPixels: nat): (r: seq<byte>)
    ensures |r| == 3 * numPixels
  {
    seq(3 * numPixels, _ => 0)
  }

  /** The buffer after the colour has been written at each listed pixel in turn. */
  function PaintAll(data: seq<byte>, ids: seq<nat>, color: nat): (r: seq<byte>)
    ensures |r| == |data|
  {
    if |ids| == 0 then data else Paint(PaintAll(data, ids[..|ids| - 1], color), ids[|ids| - 1], color)
  }

  /** Some listed pixel lies past the end of the buffer: indexing it panics. */
  predicate OutsideBuffer(ids: seq<nat>, numPixels: nat)
  {
    exists i :: 0 <= i < |ids| && ids[i] >= numPixels
  }

  /** onCommand.Execute up to the SetPixels call. */
  function OnPlan(numPixels: nat, color: nat, args: seq<string>): Plan
  {
    if |args| != 1 then Stop(ExitUsageError)
    else match PixelIds(args[0], numPixels)
      case Rejected(_) => Stop(ExitFailure)
      case Pixels(ids) =>
        if color > 0xff_ffff then Stop(ExitUsageError)
        else if OutsideBuffer(ids, numPixels) then Stop(Panic)
        else Send(PaintAll(Dark(numPixels), ids, color))
  }

  /** offCommand.Execute up to the SetPixels call. */
  function OffPlan(numPixels: nat, args: seq<string>): Plan
  {
    if |args| != 0 then Stop(ExitUsageError) else Send(Dark(numPixels))
  }

  lemma PaintAllStep(data: seq<byte>, ids: seq<nat>, i: nat, color: nat)
    requires i < |ids|
    ensures PaintAll(data, ids[..i + 1], color) == Paint(PaintAll(data, ids[..i], color), ids[i], color)
  {
    assert ids[..i + 1][..i] == ids[..i];
  }

  /** Painting a list of pixels lights exactly the listed ones, whatever the order and repeats. */
  lemma {:induction false} PaintAllAt(data: seq<byte>, ids: seq<nat>, color: nat, p: nat)
    requires 3 * p + 3 <= |data|
    ensures Triple(PaintAll(data, ids, color), p) == if p in ids then Rgb(color) else Triple(data, p)
  {
    if |ids| > 0 {
      var front := ids[..|ids| - 1];
      PaintAllAt(data, front, color, p);
      PaintAt(PaintAll(data, front, color), ids[|ids| - 1], color, p);
      assert ids == front + [ids[|ids| - 1]];
    }
  }

  /**
   * The on buffer holds numPixels triples: the colour's R, G, B bytes at each
   * listed pixel, zero everywhere else.
   */
  lemma OnPlanLights(numPixels: nat, color: nat, ids: string)
    requires OnPlan(numPixels, color, [ids]).Send?
    ensures var chans := OnPlan(numPixels, color, [ids]).chans;
            var lit := PixelIds(ids, numPixels).ids;
            && |chans| == 3 * numPixels
            && color <= 0xff_ffff
            && forall p :: 0 <= p < numPixels ==>
                 Triple(chans, p) == if p in lit then [Red(color), Green(color), Blue(color)] else [0, 0, 0]
  {
    var lit := PixelIds(ids, numPixels).ids;
    forall p | 0 <= p < numPixels
      ensures Triple(PaintAll(Dark(numPixels), lit, color), p) == if p in lit then Rgb(color) else [0, 0, 0]
    {
      PaintAllAt(Dark(numPixels), lit, color, p);
      assert Triple(Dark(numPixels), p) == [0, 0, 0];
    }
  }

  /**
   * A comma-form pixel past the end gets through the parser (where the range
   * form "8..15" is rejected) and then panics in the buffer loop.
   */
  lemma OnPastTheEnd()
    ensures PixelIds("12", 10) == Pixels([12])
    ensures OnPlan(10, 0xff_ffff, ["12"]) == Stop(Panic)
  {
    Text.FirstIndexAbsent("12", '.');
    Text.FirstIndexAbsent("12", ',');
    assert Text.DigitsValue("12") == 12 by { assert "12"[..1] == "1"; }
    CommaCase("12", ["12"], 10);
    assert OutsideBuffer([12], 10) by { assert [12][0] == 12; }
  }

  /** The off buffer is dark, and off sends what `on --color 0 all` sends. */
  lemma OffIsOnBlack(numPixels: nat)
    ensures OffPlan(numPixels, []) == Send(Dark(numPixels))
    ensures OnPlan(numPixels, 0, ["all"]) == OffPlan(numPixels, [])
  {
    var lit := Upto(0, numPixels);
    var chans := PaintAll(Dark(numPixels), lit, 0);
    assert !OutsideBuffer(lit, numPixels);
    forall i | 0 <= i < 3 * numPixels
      ensures chans[i] == 0
    {
      var p := i / 3;
      PaintAllAt(Dark(numPixels), lit, 0, p);
      assert chans[i] == Triple(chans, p)[i - 3 * p];
    }
  }

  /**
   * onCommand.Execute on a connection already set up (newTopStateFromTopFlags
   * is not part of this model): OnPlan, then SetPixels on the buffer.
   */
  method OnExecute(conn: DdpNet.DdpConn, addr: DdpNet.Addr, numPixels: nat, color: nat, args: seq<string>)
    returns (status: ExitStatus)
    requires conn.Valid() && 3 * numPixels <= Two32
    modifies conn
    ensures conn.Valid() && conn.maxChansPerPacket == old(conn.maxChansPerPacket)
    ensures Sent(conn, addr, OnPlan(numPixels, color, args), status)
  {
    if |args| != 1 {
      return ExitUsageError;
    }
    var toOn := ParsePixelIds(args[0], numPixels);
    if toOn.Rejected? {
      return ExitFailure;
    }
    if color > 0xff_ffff {
      return ExitUsageError;
    }
    var chans, panics := OnBuffer(numPixels, color, toOn.ids);
    if panics {
      return Panic;
    }
    var err := conn.SetPixels(chans, addr);
    status := if err then ExitFailure else ExitSuccess;
  }

  /**
   * The buffer loop of onCommand.Execute: each listed pixel's triple set to
   * the colour, stopping (Go panics) at the first pixel past the end.
   */
  method OnBuffer(numPixels: nat, color: nat, ids: seq<nat>) returns (buf: seq<byte>, panics: bool)
    ensures panics == OutsideBuffer(ids, numPixels)
    ensures !panics ==> buf == PaintAll(Dark(numPixels), ids, color)
  {
    var chans := new byte[3 * numPixels](_ => 0);
    assert chans[..] == Dark(numPixels);
    for i := 0 to |ids|
      invariant chans[..] == PaintAll(Dark(numPixels), ids[..i], color)
      invariant forall j :: 0 <= j < i ==> ids[j] < numPixels
    {
      var p := ids[i];
      if p >= numPixels {
        return chans[..], true;
      }
      WriteTriple(chans, p, color);
      PaintAllStep(Dark(numPixels), ids, i, color);
    }
    assert ids[..|ids|] == ids;
    return chans[..], false;
  }

  /** offCommand.Execute on a connection already set up: OffPlan, then SetPixels. */
  method OffExecute(conn: DdpNet.DdpConn, addr: DdpNet.Addr, numPixels: nat, args: seq<string>)
    returns (status: ExitStatus)
    requires conn.Valid() && 3 * numPixels <= Two32
    modifies conn
    ensures conn.Valid() && conn.maxChansPerPacket == old(conn.maxChansPerPacket)
    ensures Sent(conn, addr, OffPlan(numPixels, args), status)
  {
    if |args| != 0 {
      return ExitUsageError;
    }
    var chans := new byte[3 * numPixels](_ => 0);
    assert chans[..] == Dark(numPixels);
    var err := conn.SetPixels(chans[..], addr);
    status := if err then ExitFailure else ExitSuccess;
  }

  /**
   * The connection after a command: untouched when the plan stops, otherwise
   * it sent the plan's buffer as SetPixels does, and the command fails exactly
   * when SetPixels did.
   */
  twostate predicate Sent(conn: DdpNet.DdpConn, addr: DdpNet.Addr, plan: Plan, status: ExitStatus)
    reads conn
  {
    && old(conn.Valid())
    && (plan.Stop? ==> status == plan.status && conn.sent == old(conn.sent)
                       && conn.seqNo == old(conn.seqNo) && conn.budget == old(conn.budget))
    && (plan.Send? ==>
          && |plan.chans| <= Two32
          && (var o := DdpNet.Run(plan.chans, old(conn.maxChansPerPacket), 0, old(conn.seqNo), old(conn.budget));
              && conn.sent == old(conn.sent) + DdpNet.ToDst(o.sent, addr) && conn.seqNo == o.seqNo
              && status == if o.err then ExitFailure else ExitSuccess))
  }
}
