/*
 * merged_coords.cc: a merged-coordinates file holds one line per pixel,
 * "NNN x,y x,y" with "-" for a camera that did not see the pixel. The
 * reader opens the file without checking it (a file that cannot be opened
 * reads as empty), keeps every line, and stops at the first bad one.
 */
module MergedCoords {
  import opened Wrappers
  import opened Geometry
  import opened Text
  import Coords

  /** One line: the pixel number and each camera's coordinate (a tuple of ints, here a Point2). */
  datatype MergedCoordsRecord = MergedCoordsRecord(pixelNum: int, coords: seq<Option<Point2>>)

  /** The reader's errors: "line N: suffix", invalid argument. */
  function LineError(lineno: int, suffix: string): Error
  {
    Error(InvalidArgument, "line " + IntToString(lineno) + ": " + suffix)
  }

  function CoordTexts(cs: seq<Option<Point2>>): (ts: seq<string>)
    ensures |ts| == |cs| && forall i :: 0 <= i < |cs| ==> ts[i] == Coords.CoordText(cs[i])
  {
    seq(|cs|, i requires 0 <= i < |cs| => Coords.CoordText(cs[i]))
  }

  /** operator<<: the pixel number with %03d, a space, and the coordinates joined by spaces. */
  function RecordText(rec: MergedCoordsRecord): string
  {
    ZeroPad3(rec.pixelNum) + " " + Join(CoordTexts(rec.coords), " ")
  }

  /**
   * ParseCoord as written: split once on ',' and read parts[0] and parts[1]
   * without checking that there are two parts. Without a ',' there is one
   * part, and parts[1] reads past the end of the vector; `beyond` stands
   * for whatever is found there.
   */
  function ParseCoordAsWritten(s: string, beyond: string): Option<Point2>
  {
    var parts := SplitMax(s, ',', 1);
    var second := if |parts| == 2 then parts[1] else beyond;
    match (AtoiInt(parts[0]), AtoiInt(second))
    case (Some(x), Some(y)) => Some(Point2(x, y))
    case _ => None
  }

  /**
   * With a ',' the reading as written is the checked one (Coords.ParseXYCoord,
   * which the reader below uses); without one, a one-digit field such as
   * "5" is read as a point as written whenever the memory past the vector
   * happens to hold a number, such as "7".
   */
  lemma ParseCoordAsWrittenMissingComma(c: char, d: char)
    requires IsDigit(c) && IsDigit(d)
    ensures ParseCoordAsWritten([c], [d]) == Some(Point2(DigitValue(c), DigitValue(d)))
    ensures Coords.ParseXYCoord([c]) == None
  {
    SplitMaxOneAbsent([c], ',');
    AtoiOneDigit(c);
    AtoiOneDigit(d);
  }

  lemma AtoiOneDigit(c: char)
    requires IsDigit(c)
    ensures AtoiInt([c]) == Some(DigitValue(c))
  {
    assert DigitsValue([c]) == DigitValue(c) by {
      assert [c][..0] == [];
    }
    AtoiDigits([c], Int32Min, Int32Max);
  }

  lemma ParseCoordAsWrittenAgrees(s: string, beyond: string)
    requires ',' in s
    ensures ParseCoordAsWritten(s, beyond) == Coords.ParseXYCoord(s)
  {
    var k := FirstIndex(s, ',');
    assert s[k] == ',';
  }

  /** One line of the file: exactly three space-separated fields, a pixel number and two coordinates. */
  function MergedLine(lineno: int, line: string): Result<MergedCoordsRecord>
  {
    var parts := Split(line, ' ');
    if |parts| != 3 then Fail(LineError(lineno, "too many coords"))
    else match Coords.PixelNumber(parts[0])
      case None => Fail(LineError(lineno, "pixel number invalid"))
      case Some(n) =>
        match Coords.Fields(parts[1..], Coords.CoordField)
        case BadCoordinate(j) => Fail(LineError(lineno, "coordinate " + IntToString(j) + " invalid"))
        case Coordinates(cs) => Ok(MergedCoordsRecord(n, cs))
  }

  /**
   * One line as written: the pixel number passes the inverted test of
   * Coords.PixelNumberAsWritten, with `leftover` what a failed parse
   * leaves in the unsigned variable, and is stored into the record's int.
   */
  function MergedLineAsWritten(lineno: int, line: string, leftover: int): Result<MergedCoordsRecord>
    requires 0 <= leftover <= UInt32Max
  {
    var parts := Split(line, ' ');
    if |parts| != 3 then Fail(LineError(lineno, "too many coords"))
    else match Coords.PixelNumberAsWritten(parts[0], leftover)
      case None => Fail(LineError(lineno, "pixel number invalid"))
      case Some(n) =>
        match Coords.Fields(parts[1..], Coords.CoordField)
        case BadCoordinate(j) => Fail(LineError(lineno, "coordinate " + IntToString(j) + " invalid"))
        case Coordinates(cs) => Ok(MergedCoordsRecord(n, cs))
  }

  /**
   * A line joining a pixel field and two good coordinates with spaces: as
   * written and as intended, only the pixel-number test decides the line.
   */
  lemma MergedLinesOf(lineno: int, a: string, b: string, d: string, leftover: int)
    requires 0 <= leftover <= UInt32Max
    requires ' ' !in a && ' ' !in b && ' ' !in d && Coords.CoordField(b).Some? && Coords.CoordField(d).Some?
    ensures var line, cs := Join([a, b, d], [' ']), [Coords.CoordField(b).value, Coords.CoordField(d).value];
            && MergedLineAsWritten(lineno, line, leftover)
               == (match Coords.PixelNumberAsWritten(a, leftover)
                   case None => Fail(LineError(lineno, "pixel number invalid"))
                   case Some(n) => Ok(MergedCoordsRecord(n, cs)))
            && MergedLine(lineno, line)
               == (match Coords.PixelNumber(a)
                   case None => Fail(LineError(lineno, "pixel number invalid"))
                   case Some(n) => Ok(MergedCoordsRecord(n, cs)))
  {
    SplitJoin([a, b, d], ' ');
    assert [a, b, d][1..] == [b, d];
    Coords.FieldsTwo(b, d, Coords.CoordField);
  }

  /**
   * A line whose pixel field is one character that is no number, such as
   * "x 1,2 3,4", is read as written as a record for pixel 0 (nothing left in
   * the variable); the intended reader refuses the pixel number.
   */
  lemma MergedLineAsWrittenAcceptsBadPixel(lineno: int, a: string, b: string, d: string)
    requires |a| == 1 && !IsDigit(a[0]) && !IsAsciiSpace(a[0]) && a[0] != '-' && a[0] != '+'
    requires ' ' !in b && ' ' !in d && Coords.CoordField(b).Some? && Coords.CoordField(d).Some?
    ensures MergedLineAsWritten(lineno, Join([a, b, d], [' ']), 0)
            == Ok(MergedCoordsRecord(0, [Coords.CoordField(b).value, Coords.CoordField(d).value]))
    ensures MergedLine(lineno, Join([a, b, d], [' '])) == Fail(LineError(lineno, "pixel number invalid"))
  {
    assert a == [a[0]];
    Coords.AsWrittenAcceptsBadPixel(a[0]);
    MergedLinesOf(lineno, a, b, d, 0);
  }

  /**
   * A line for pixel 70000, such as "70000 1,2 3,4", is read as written
   * with that pixel number; the intended reader refuses it as over 65536.
   */
  lemma MergedLineAsWrittenAcceptsLargePixel(lineno: int, b: string, d: string)
    requires ' ' !in b && ' ' !in d && Coords.CoordField(b).Some? && Coords.CoordField(d).Some?
    ensures MergedLineAsWritten(lineno, Join([ZeroPad3(70000), b, d], [' ']), 0)
            == Ok(MergedCoordsRecord(70000, [Coords.CoordField(b).value, Coords.CoordField(d).value]))
    ensures MergedLine(lineno, Join([ZeroPad3(70000), b, d], [' '])) == Fail(LineError(lineno, "pixel number invalid"))
  {
    Coords.AsWrittenAcceptsLargePixel();
    AtoiUIntZeroPad3(70000);
    MergedLinesOf(lineno, ZeroPad3(70000), b, d, 0);
  }

  /** The values the given lines (numbered from 1) parse to, in file order, or the first line's error. */
  function Collect<V>(lines: seq<string>, parse: (int, string) -> Result<V>): Result<seq<V>>
  {
    if |lines| == 0 then Ok([])
    else match Collect(lines[..|lines| - 1], parse)
      case Fail(e) => Fail(e)
      case Ok(vs) =>
        match parse(|lines|, lines[|lines| - 1])
        case Fail(e) => Fail(e)
        case Ok(v) => Ok(vs + [v])
  }

  function MergedParser(): (int, string) -> Result<MergedCoordsRecord>
  {
    (lineno: int, line: string) => MergedLine(lineno, line)
  }

  /** A file that cannot be opened gives no lines, and so no records. */
  function MergedCoordsOf(file: Coords.File): Result<seq<MergedCoordsRecord>>
  {
    match file
    case None => Ok([])
    case Some(lines) => Collect(lines, MergedParser())
  }

  /** Every good line gives one value, in order: value k comes from line k + 1. */
  lemma {:induction false} CollectLines<V>(lines: seq<string>, parse: (int, string) -> Result<V>)
    requires Collect(lines, parse).Ok?
    ensures |Collect(lines, parse).value| == |lines|
    ensures forall k :: 0 <= k < |lines| ==> parse(k + 1, lines[k]) == Ok(Collect(lines, parse).value[k])
  {
    if |lines| > 0 {
      var init := lines[..|lines| - 1];
      CollectLines(init, parse);
      assert forall k :: 0 <= k < |init| ==> init[k] == lines[k];
    }
  }

  /** Lines that all parse give exactly their values. */
  lemma {:induction false} CollectAll<V>(lines: seq<string>, parse: (int, string) -> Result<V>, vs: seq<V>)
    requires |vs| == |lines|
    requires forall k :: 0 <= k < |lines| ==> parse(k + 1, lines[k]) == Ok(vs[k])
    ensures Collect(lines, parse) == Ok(vs)
  {
    if |lines| > 0 {
      var init := lines[..|lines| - 1];
      assert forall k :: 0 <= k < |init| ==> init[k] == lines[k];
      CollectAll(init, parse, vs[..|vs| - 1]);
      assert vs == vs[..|vs| - 1] + [vs[|vs| - 1]];
    }
  }

  /** An error on line i is the error of the whole file when the lines before it are good. */
  lemma {:induction false} FirstErrorStops<V>(lines: seq<string>, parse: (int, string) -> Result<V>, i: int)
    requires 0 <= i < |lines| && parse(i + 1, lines[i]).Fail?
    requires Collect(lines[..i], parse).Ok?
    ensures Collect(lines, parse) == Fail(parse(i + 1, lines[i]).error)
  {
    if i < |lines| - 1 {
      var init := lines[..|lines| - 1];
      assert init[..i] == lines[..i] && init[i] == lines[i];
      FirstErrorStops(init, parse, i);
    } else {
      assert lines[..|lines| - 1] == lines[..i];
    }
  }

  /** A record the reader can give back: a pixel number it accepts and two int coordinates. */
  predicate Readable(rec: MergedCoordsRecord)
  {
    && 0 <= rec.pixelNum <= Coords.MaxPixelNumber
    && |rec.coords| == 2 && Coords.Int32Point(rec.coords[0]) && Coords.Int32Point(rec.coords[1])
  }

  /** A written record reads back as itself. */
  lemma LineReadsBack(lineno: int, rec: MergedCoordsRecord)
    requires Readable(rec)
    ensures MergedLine(lineno, RecordText(rec)) == Ok(rec)
  {
    var cs := rec.coords;
    var b, d := Coords.CoordText(cs[0]), Coords.CoordText(cs[1]);
    Coords.PixelNumberZeroPad3(rec.pixelNum);
    Coords.CoordTextRoundTrip(cs[0]);
    Coords.CoordTextRoundTrip(cs[1]);
    RecordTextJoin(rec);
    MergedLineOf(lineno, RecordText(rec), ZeroPad3(rec.pixelNum), b, d);
    assert cs == [cs[0], cs[1]];
  }

  lemma RecordTextJoin(rec: MergedCoordsRecord)
    requires |rec.coords| == 2
    ensures RecordText(rec) == Join([ZeroPad3(rec.pixelNum), Coords.CoordText(rec.coords[0]), Coords.CoordText(rec.coords[1])], [' '])
  {
    var cs := rec.coords;
    assert CoordTexts(cs) == [Coords.CoordText(cs[0]), Coords.CoordText(cs[1])];
    JoinAfter(ZeroPad3(rec.pixelNum), Coords.CoordText(cs[0]), Coords.CoordText(cs[1]));
  }

  lemma JoinAfter(a: string, b: string, d: string)
    ensures a + " " + Join([b, d], " ") == Join([a, b, d], [' '])
  {
    assert [a, b, d][1..] == [b, d];
  }

  /** A line joining a good pixel number and two good coordinates with spaces. */
  lemma MergedLineOf(lineno: int, line: string, a: string, b: string, d: string)
    requires line == Join([a, b, d], [' ']) && ' ' !in a && ' ' !in b && ' ' !in d
    requires Coords.PixelNumber(a).Some? && Coords.CoordField(b).Some? && Coords.CoordField(d).Some?
    ensures MergedLine(lineno, line)
            == Ok(MergedCoordsRecord(Coords.PixelNumber(a).value, [Coords.CoordField(b).value, Coords.CoordField(d).value]))
  {
    SplitJoin([a, b, d], ' ');
    assert [a, b, d][1..] == [b, d];
    Coords.FieldsTwo(b, d, Coords.CoordField);
  }

  function FileText(recs: seq<MergedCoordsRecord>): (lines: seq<string>)
    ensures |lines| == |recs| && forall k :: 0 <= k < |recs| ==> lines[k] == RecordText(recs[k])
  {
    seq(|recs|, k requires 0 <= k < |recs| => RecordText(recs[k]))
  }

  /** A file of written records, one per line, reads back as the same records. */
  lemma FileReadsBack(recs: seq<MergedCoordsRecord>)
    requires forall k :: 0 <= k < |recs| ==> Readable(recs[k])
    ensures MergedCoordsOf(Some(FileText(recs))) == Ok(recs)
  {
    var lines := FileText(recs);
    forall k | 0 <= k < |lines|
      ensures MergedParser()(k + 1, lines[k]) == Ok(recs[k])
    {
      LineReadsBack(k + 1, recs[k]);
    }
    CollectAll(lines, MergedParser(), recs);
  }

  /** The per-line work of the reader, with its coordinate loop. */
  method ParseMergedLine(lineno: int, line: string) returns (r: Result<MergedCoordsRecord>)
    ensures r == MergedLine(lineno, line)
  {
    var parts := Split(line, ' ');
    if |parts| != 3 {
      return Fail(LineError(lineno, "too many coords"));
    }
    var n := Coords.PixelNumber(parts[0]);
    if n.None? {
      return Fail(LineError(lineno, "pixel number invalid"));
    }
    var fields := Coords.ParseFields(parts[1..], Coords.CoordField);
    if fields.BadCoordinate? {
      return Fail(LineError(lineno, "coordinate " + IntToString(fields.j) + " invalid"));
    }
    r := Ok(MergedCoordsRecord(n.value, fields.coords));
  }

  method ReadMergedCoords(file: Coords.File) returns (r: Result<seq<MergedCoordsRecord>>)
    ensures r == MergedCoordsOf(file)
  {
    if file.None? {
      return Ok([]);
    }
    var lines := file.value;
    var recs := [];
    for i := 0 to |lines|
      invariant Collect(lines[..i], MergedParser()) == Ok(recs)
    {
      assert lines[..i + 1][..i] == lines[..i];
      var rec := ParseMergedLine(i + 1, lines[i]);
      if rec.Fail? {
        FirstErrorStops(lines, MergedParser(), i);
        return Fail(rec.error);
      }
      recs := recs + [rec.value];
    }
    assert lines[..|lines|] == lines;
    r := Ok(recs);
  }
}
