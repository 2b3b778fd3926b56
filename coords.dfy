/*
 * coords.cc's ReadCoords: read a camera-coordinates file (a pixel number
 * and one "x,y" or "-" per camera on each line) and a world-coordinates
 * file (a pixel number and "x,y,z"), and merge them into one record per
 * pixel, in ascending pixel order. A file is given as its lines, or None
 * when it cannot be opened. Decimal numbers in the world file are read by
 * the `atod` parameter, which stands for absl::SimpleAtod.
 */
module Coords {
  import opened Wrappers
  import opened Geometry
  import opened Text
  import Ordered

  /** One merged record: the pixel, its camera coordinates (if in the camera file) and its world coordinate (if in the world file). */
  datatype CoordsRecord = CoordsRecord(pixelNum: int, cameraCoords: seq<Option<Point2>>, worldCoord: Option<Point3>)

  /** A file as the readers see it: None when it cannot be opened, else its lines. */
  type File = Option<seq<string>>

  const MaxPixelNumber: int := 65536

  /** MakeParseError: "path:line: suffix", an invalid-argument error. */
  function ParseError(path: string, lineno: int, suffix: string): Error
  {
    Error(InvalidArgument, path + ":" + IntToString(lineno) + ": " + suffix)
  }

  /** ReadFields' complaint about a line with the wrong number of fields. */
  function FieldCountError(path: string, lineno: int, want: int, got: int): Error
  {
    ParseError(path, lineno, "wanted " + IntToString(want) + " fields, got " + IntToString(got))
  }

  const OpenError: Error := Error(Unknown, "failed to open file")

  /**
   * The pixel-number check as evidently intended: the field reads as an
   * unsigned number and that number is at most 65536.
   */
  function PixelNumber(field: string): (r: Option<int>)
    ensures r.Some? ==> 0 <= r.value <= MaxPixelNumber
    ensures r.Some? <==> AtoiUInt(field).Some? && AtoiUInt(field).value <= MaxPixelNumber
  {
    match AtoiUInt(field)
    case Some(v) => if v <= MaxPixelNumber then Some(v) else None
    case None => None
  }

  /** A pixel number printed with %03d is read back. */
  lemma PixelNumberZeroPad3(n: int)
    requires 0 <= n <= MaxPixelNumber
    ensures PixelNumber(ZeroPad3(n)) == Some(n)
    ensures ' ' !in ZeroPad3(n)
  {
    AtoiUIntZeroPad3(n);
  }

  /** An `unsigned int` stored into an `int`: values past 2^31 - 1 wrap to negative. */
  function UIntToInt(v: int): int
  {
    if v > Int32Max then v - 0x1_0000_0000 else v
  }

  /**
   * The check as written, `!SimpleAtoi(field, &n) && n > 65536`: it fails
   * only when the parse fails AND the number left in `leftover` (unspecified
   * after a failed parse) exceeds 65536; a successful parse is never
   * checked.
   */
  function PixelNumberAsWritten(field: string, leftover: int): Option<int>
    requires 0 <= leftover <= UInt32Max
  {
    match AtoiUInt(field)
    case Some(v) => Some(UIntToInt(v))
    case None => if leftover > MaxPixelNumber then None else Some(leftover)
  }

  /**
   * A one-character field that is no number at all (such as "x") passes
   * as written, as pixel 0 when nothing is left in the variable; the
   * intended check refuses it.
   */
  lemma AsWrittenAcceptsBadPixel(c: char)
    requires !IsDigit(c) && !IsAsciiSpace(c) && c != '-' && c != '+'
    ensures PixelNumberAsWritten([c], 0) == Some(0) && PixelNumber([c]) == None
  {
    TrimLeftNone([c]);
    TrimRightNone([c]);
    assert !AllDigits([c]);
  }

  /** Pixel 70000, printed with %03d, passes the check as written and fails the intended one. */
  lemma AsWrittenAcceptsLargePixel()
    ensures PixelNumberAsWritten(ZeroPad3(70000), 0) == Some(70000) && PixelNumber(ZeroPad3(70000)) == None
  {
    AtoiUIntZeroPad3(70000);
  }

  /** ParseXYCoord: "x,y" split once on ',' into two ints. */
  function ParseXYCoord(s: string): Option<Point2>
  {
    var parts := SplitMax(s, ',', 1);
    if |parts| != 2 then None
    else match (AtoiInt(parts[0]), AtoiInt(parts[1]))
      case (Some(x), Some(y)) => Some(Point2(x, y))
      case _ => None
  }

  /** The "x,y" text of an int point is parsed back to the point. */
  lemma ParseXYCoordRoundTrip(p: Point2)
    requires Int32Min <= p.x <= Int32Max && Int32Min <= p.y <= Int32Max
    ensures ParseXYCoord(IntToString(p.x) + "," + IntToString(p.y)) == Some(p)
  {
    AtoiIntToString(p.x);
    AtoiIntToString(p.y);
    SplitMaxOneJoin(IntToString(p.x), IntToString(p.y), ',');
    assert IntToString(p.x) + "," + IntToString(p.y) == IntToString(p.x) + [','] + IntToString(p.y);
  }

  /** ParseXYZCoord: "x,y,z" split at most twice on ',' into three decimals. */
  function ParseXYZCoord(s: string, atod: string -> Option<real>): Option<Point3>
  {
    var parts := SplitMax(s, ',', 2);
    if |parts| != 3 then None
    else match (atod(parts[0]), atod(parts[1]), atod(parts[2]))
      case (Some(x), Some(y), Some(z)) => Some(Point3(x, y, z))
      case _ => None
  }

  /** One camera field: "-" for a camera that did not see the pixel, else a point; None when it is neither. */
  function CoordField(f: string): Option<Option<Point2>>
  {
    if f == "-" then Some(None)
    else match ParseXYCoord(f)
      case Some(p) => Some(Some(p))
      case None => None
  }

  /** A camera coordinate as operator<< writes it: "x,y", or "-" when the camera did not see the pixel. */
  function CoordText(c: Option<Point2>): string
  {
    match c
    case None => "-"
    case Some(p) => IntToString(p.x) + "," + IntToString(p.y)
  }

  /** The camera coordinates, each after a space. */
  function CamerasText(cs: seq<Option<Point2>>): string
  {
    if |cs| == 0 then "" else " " + CoordText(cs[0]) + CamerasText(cs[1..])
  }

  /**
   * operator<< for a record: the pixel number with %03d, the camera
   * coordinates, then the world coordinate after two spaces. `ftoa` stands
   * for the %f conversion.
   */
  function RecordText(rec: CoordsRecord, ftoa: real -> string): string
  {
    ZeroPad3(rec.pixelNum) + CamerasText(rec.cameraCoords) + WorldText(rec.worldCoord, ftoa)
  }

  function WorldText(w: Option<Point3>, ftoa: real -> string): string
  {
    match w
    case None => ""
    case Some(p) => " " + " " + ftoa(p.x) + "," + ftoa(p.y) + "," + ftoa(p.z)
  }

  predicate Int32Point(c: Option<Point2>)
  {
    c.Some? ==> Int32Min <= c.value.x <= Int32Max && Int32Min <= c.value.y <= Int32Max
  }

  /** A written camera coordinate reads back as itself and holds no space. */
  lemma CoordTextRoundTrip(c: Option<Point2>)
    requires Int32Point(c)
    ensures CoordField(CoordText(c)) == Some(c)
    ensures ' ' !in CoordText(c)
  {
    if c.Some? {
      var p := c.value;
      ParseXYCoordRoundTrip(p);
      AtoiIntToString(p.x);
      AtoiIntToString(p.y);
      var t := CoordText(c);
      assert t[|IntToString(p.x)|] == ',';
      assert t != "-";
    }
  }

  /**
   * A record of two int camera coordinates and no world coordinate, as
   * operator<< writes it, is a line the camera-coordinates reader accepts,
   * giving back the pixel number and the coordinates.
   */
  lemma RecordTextReadsBack(path: string, lineno: int, rec: CoordsRecord, ftoa: real -> string)
    requires 0 <= rec.pixelNum <= MaxPixelNumber && rec.worldCoord.None?
    requires |rec.cameraCoords| == 2 && Int32Point(rec.cameraCoords[0]) && Int32Point(rec.cameraCoords[1])
    ensures CameraLine(path, lineno, RecordText(rec, ftoa)) == Ok((rec.pixelNum, rec.cameraCoords))
  {
    var cs := rec.cameraCoords;
    var a, b, d := ZeroPad3(rec.pixelNum), CoordText(cs[0]), CoordText(cs[1]);
    var line := RecordText(rec, ftoa);
    assert PixelNumber(a) == Some(rec.pixelNum) && ' ' !in a by {
      PixelNumberZeroPad3(rec.pixelNum);
    }
    assert CoordField(b) == Some(cs[0]) && ' ' !in b by {
      CoordTextRoundTrip(cs[0]);
    }
    assert CoordField(d) == Some(cs[1]) && ' ' !in d by {
      CoordTextRoundTrip(cs[1]);
    }
    assert line == Join([a, b, d], [' ']) by {
      RecordTextJoin(rec, ftoa);
    }
    CameraLineOf(path, lineno, line, a, b, d);
    assert cs == [cs[0], cs[1]];
  }

  /** A line joining a good pixel number and two good coordinates with spaces. */
  lemma CameraLineOf(path: string, lineno: int, line: string, a: string, b: string, d: string)
    requires line == Join([a, b, d], [' ']) && ' ' !in a && ' ' !in b && ' ' !in d
    requires PixelNumber(a).Some? && CoordField(b).Some? && CoordField(d).Some?
    ensures CameraLine(path, lineno, line) == Ok((PixelNumber(a).value, [CoordField(b).value, CoordField(d).value]))
  {
    SplitJoin([a, b, d], ' ');
    assert [a, b, d][1..] == [b, d];
    FieldsTwo(b, d, CoordField);
  }

  lemma RecordTextJoin(rec: CoordsRecord, ftoa: real -> string)
    requires rec.worldCoord.None? && |rec.cameraCoords| == 2
    ensures RecordText(rec, ftoa) == Join([ZeroPad3(rec.pixelNum), CoordText(rec.cameraCoords[0]), CoordText(rec.cameraCoords[1])], [' '])
  {
    var cs := rec.cameraCoords;
    CamerasTwo(cs);
    Assemble(ZeroPad3(rec.pixelNum), CamerasText(cs), CoordText(cs[0]), CoordText(cs[1]));
  }

  lemma Assemble(a: string, cams: string, b: string, d: string)
    requires cams == " " + b + " " + d
    ensures a + cams + "" == Join([a, b, d], [' '])
  {
    JoinThree(a, b, d);
  }

  lemma CamerasTwo(cs: seq<Option<Point2>>)
    requires |cs| == 2
    ensures CamerasText(cs) == " " + CoordText(cs[0]) + " " + CoordText(cs[1])
  {
    assert CamerasText(cs[1..][1..]) == "";
  }

  lemma JoinThree(a: string, b: string, d: string)
    ensures Join([a, b, d], [' ']) == a + " " + b + " " + d
  {
    assert [a, b, d][1..] == [b, d];
    assert [b, d][1..] == [d];
    assert Join([d], [' ']) == d;
    assert Join([b, d], [' ']) == b + [' '] + d;
    assert Join([a, b, d], [' ']) == a + [' '] + (b + [' '] + d);
    assert " " == [' '];
  }

  /** The coordinate fields of a line: their values, or the first bad one's index j (the line's field j). */
  datatype FieldsResult<T> = Coordinates(coords: seq<T>) | BadCoordinate(j: int)

  /** The loop over a line's coordinate fields, field 1 onwards, stopping at the first that `parse` refuses. */
  function Fields<T>(fields: seq<string>, parse: string -> Option<T>): (r: FieldsResult<T>)
    ensures r.Coordinates? ==>
              && |r.coords| == |fields|
              && forall k :: 0 <= k < |fields| ==> parse(fields[k]) == Some(r.coords[k])
    ensures r.BadCoordinate? ==>
              && 1 <= r.j <= |fields| && parse(fields[r.j - 1]).None?
              && forall k :: 0 <= k < r.j - 1 ==> parse(fields[k]).Some?
  {
    if |fields| == 0 then Coordinates([])
    else
      var init := fields[..|fields| - 1];
      assert forall k :: 0 <= k < |init| ==> init[k] == fields[k];
      match Fields(init, parse)
      case BadCoordinate(j) => BadCoordinate(j)
      case Coordinates(cs) =>
        match parse(fields[|fields| - 1])
        case Some(c) => Coordinates(cs + [c])
        case None => BadCoordinate(|fields|)
  }

  method ParseFields<T>(fields: seq<string>, parse: string -> Option<T>) returns (r: FieldsResult<T>)
    ensures r == Fields(fields, parse)
  {
    var coords := [];
    for k := 0 to |fields|
      invariant Fields(fields[..k], parse) == Coordinates(coords)
    {
      var c := parse(fields[k]);
      FieldsSnoc(fields, parse, k, coords);
      if c.None? {
        return BadCoordinate(k + 1);
      }
      coords := coords + [c.value];
    }
    assert fields[..|fields|] == fields;
    r := Coordinates(coords);
  }

  /** One more field: a good one extends the values, a bad one is reported by its position. */
  lemma FieldsSnoc<T>(fields: seq<string>, parse: string -> Option<T>, k: int, coords: seq<T>)
    requires 0 <= k < |fields| && Fields(fields[..k], parse) == Coordinates(coords)
    ensures Fields(fields[..k + 1], parse)
            == if parse(fields[k]).Some? then Coordinates(coords + [parse(fields[k]).value]) else BadCoordinate(k + 1)
  {
    assert fields[..k + 1][..k] == fields[..k];
    assert fields[..k + 1][k] == fields[k];
  }

  lemma FieldsTwo<T>(b: string, d: string, parse: string -> Option<T>)
    requires parse(b).Some? && parse(d).Some?
    ensures Fields([b, d], parse) == Coordinates([parse(b).value, parse(d).value])
  {
    assert [b, d][..1] == [b];
    assert [b][..0] == [];
  }

  /** One line of the camera file: exactly 3 space-separated fields, a pixel number and two coordinates. */
  function CameraLine(path: string, lineno: int, line: string): Result<(int, seq<Option<Point2>>)>
  {
    var parts := Split(line, ' ');
    if |parts| != 3 then Fail(FieldCountError(path, lineno, 3, |parts|))
    else match PixelNumber(parts[0])
      case None => Fail(ParseError(path, lineno, "pixel number invalid"))
      case Some(n) =>
        match Fields(parts[1..], CoordField)
        case BadCoordinate(j) => Fail(ParseError(path, lineno, "coordinate " + IntToString(j) + " invalid"))
        case Coordinates(cs) => Ok((n, cs))
  }

  /** One line of the world file: exactly 2 space-separated fields, a pixel number and "x,y,z". */
  function WorldLine(path: string, lineno: int, line: string, atod: string -> Option<real>): Result<(int, Point3)>
  {
    var parts := Split(line, ' ');
    if |parts| != 2 then Fail(FieldCountError(path, lineno, 2, |parts|))
    else match PixelNumber(parts[0])
      case None => Fail(ParseError(path, lineno, "pixel number invalid"))
      case Some(n) =>
        match ParseXYZCoord(parts[1], atod)
        case None => Fail(ParseError(path, lineno, "world coordinate invalid"))
        case Some(p) => Ok((n, p))
  }

  /**
   * ReadFields with an emplacing callback, over the given lines (numbered
   * from 1): the first line's error, or the map from each pixel to the
   * value of its first line.
   */
  function Fold<V>(lines: seq<string>, parse: (int, string) -> Result<(int, V)>): Result<map<int, V>>
  {
    if |lines| == 0 then Ok(map[])
    else match Fold(lines[..|lines| - 1], parse)
      case Fail(e) => Fail(e)
      case Ok(m) =>
        match parse(|lines|, lines[|lines| - 1])
        case Fail(e) => Fail(e)
        case Ok((n, v)) => Ok(if n in m then m else m[n := v])
  }

  /** The lines before i all parse, and none names pixel n. */
  predicate GoodWithout<V>(lines: seq<string>, parse: (int, string) -> Result<(int, V)>, i: int, n: int)
    requires 0 <= i <= |lines|
  {
    forall j :: 0 <= j < i ==> parse(j + 1, lines[j]).Ok? && parse(j + 1, lines[j]).value.0 != n
  }

  /**
   * A pixel named on several good lines keeps the value of its first
   * line: line i's value is in the map when no line before it names the
   * same pixel.
   */
  lemma {:induction false} FirstLineWins<V>(lines: seq<string>, parse: (int, string) -> Result<(int, V)>, i: int)
    requires Fold(lines, parse).Ok? && 0 <= i < |lines|
    requires parse(i + 1, lines[i]).Ok?
    requires GoodWithout(lines, parse, i, parse(i + 1, lines[i]).value.0)
    ensures var (n, v) := parse(i + 1, lines[i]).value;
            n in Fold(lines, parse).value && Fold(lines, parse).value[n] == v
  {
    var init := lines[..|lines| - 1];
    var (n, v) := parse(i + 1, lines[i]).value;
    if i < |lines| - 1 {
      assert init[i] == lines[i];
      assert forall j :: 0 <= j < i ==> init[j] == lines[j];
      FirstLineWins(init, parse, i);
    } else {
      assert forall j :: 0 <= j < |init| ==> init[j] == lines[j];
      NotYetSeen(init, parse, n);
    }
  }

  /** A pixel that no line names is not in the map. */
  lemma {:induction false} NotYetSeen<V>(lines: seq<string>, parse: (int, string) -> Result<(int, V)>, n: int)
    requires Fold(lines, parse).Ok?
    requires GoodWithout(lines, parse, |lines|, n)
    ensures n !in Fold(lines, parse).value
  {
    if |lines| > 0 {
      var init := lines[..|lines| - 1];
      assert forall j :: 0 <= j < |init| ==> init[j] == lines[j];
      NotYetSeen(init, parse, n);
    }
  }

  /** Every pixel in the map is named by some line. */
  lemma {:induction false} OnlyNamedPixels<V>(lines: seq<string>, parse: (int, string) -> Result<(int, V)>, n: int)
    requires Fold(lines, parse).Ok? && n in Fold(lines, parse).value
    ensures exists j :: 0 <= j < |lines| && parse(j + 1, lines[j]).Ok? && parse(j + 1, lines[j]).value == (n, Fold(lines, parse).value[n])
  {
    var init := lines[..|lines| - 1];
    var m := Fold(init, parse).value;
    if n in m {
      OnlyNamedPixels(init, parse, n);
      var j :| 0 <= j < |init| && parse(j + 1, init[j]).Ok? && parse(j + 1, init[j]).value == (n, m[n]);
      assert init[j] == lines[j];
    } else {
      assert parse(|lines|, lines[|lines| - 1]).value == (n, Fold(lines, parse).value[n]);
    }
  }

  /** An error on line i is the error of the whole file when the lines before it are good. */
  lemma {:induction false} FirstErrorStops<V>(lines: seq<string>, parse: (int, string) -> Result<(int, V)>, i: int)
    requires 0 <= i < |lines| && parse(i + 1, lines[i]).Fail?
    requires Fold(lines[..i], parse).Ok?
    ensures Fold(lines, parse) == Fail(parse(i + 1, lines[i]).error)
  {
    if i < |lines| - 1 {
      var init := lines[..|lines| - 1];
      assert init[..i] == lines[..i] && init[i] == lines[i];
      FirstErrorStops(init, parse, i);
    } else {
      assert lines[..|lines| - 1] == lines[..i];
    }
  }

  function CameraParser(path: string): (int, string) -> Result<(int, seq<Option<Point2>>)>
  {
    (lineno: int, line: string) => CameraLine(path, lineno, line)
  }

  function WorldParser(path: string, atod: string -> Option<real>): (int, string) -> Result<(int, Point3)>
  {
    (lineno: int, line: string) => WorldLine(path, lineno, line, atod)
  }

  /** ReadCameraCoords: ReadFields over the file with the camera-line callback. */
  function CameraCoordsOf(path: string, file: File): Result<map<int, seq<Option<Point2>>>>
  {
    match file
    case None => Fail(OpenError)
    case Some(lines) => Fold(lines, CameraParser(path))
  }

  function WorldCoordsOf(path: string, file: File, atod: string -> Option<real>): Result<map<int, Point3>>
  {
    match file
    case None => Fail(OpenError)
    case Some(lines) => Fold(lines, WorldParser(path, atod))
  }

  /** The camera line callback, with its coordinate loop. */
  method ParseCameraLine(path: string, lineno: int, line: string) returns (r: Result<(int, seq<Option<Point2>>)>)
    ensures r == CameraLine(path, lineno, line)
  {
    var parts := Split(line, ' ');
    if |parts| != 3 {
      return Fail(FieldCountError(path, lineno, 3, |parts|));
    }
    var n := PixelNumber(parts[0]);
    if n.None? {
      return Fail(ParseError(path, lineno, "pixel number invalid"));
    }
    var fields := ParseFields(parts[1..], CoordField);
    if fields.BadCoordinate? {
      return Fail(ParseError(path, lineno, "coordinate " + IntToString(fields.j) + " invalid"));
    }
    r := Ok((n.value, fields.coords));
  }

  method ReadCameraCoords(path: string, file: File) returns (r: Result<map<int, seq<Option<Point2>>>>)
    ensures r == CameraCoordsOf(path, file)
  {
    if file.None? {
      return Fail(OpenError);
    }
    var lines := file.value;
    var m := map[];
    for i := 0 to |lines|
      invariant Fold(lines[..i], CameraParser(path)) == Ok(m)
    {
      assert lines[..i + 1][..i] == lines[..i];
      var parsed := ParseCameraLine(path, i + 1, lines[i]);
      if parsed.Fail? {
        FirstErrorStops(lines, CameraParser(path), i);
        return Fail(parsed.error);
      }
      var (n, cs) := parsed.value;
      if n !in m {
        m := m[n := cs];
      }
    }
    assert lines[..|lines|] == lines;
    r := Ok(m);
  }

  method ReadWorldCoords(path: string, file: File, atod: string -> Option<real>) returns (r: Result<map<int, Point3>>)
    ensures r == WorldCoordsOf(path, file, atod)
  {
    if file.None? {
      return Fail(OpenError);
    }
    var lines := file.value;
    var m := map[];
    for i := 0 to |lines|
      invariant Fold(lines[..i], WorldParser(path, atod)) == Ok(m)
    {
      assert lines[..i + 1][..i] == lines[..i];
      var parsed := WorldParser(path, atod)(i + 1, lines[i]);
      if parsed.Fail? {
        FirstErrorStops(lines, WorldParser(path, atod), i);
        return Fail(parsed.error);
      }
      var (n, p) := parsed.value;
      if n !in m {
        m := m[n := p];
      }
    }
    assert lines[..|lines|] == lines;
    r := Ok(m);
  }

  /** The record for pixel n: its camera coordinates if the camera map has it, its world coordinate if the world map has it. */
  function RecordFor(camera: map<int, seq<Option<Point2>>>, world: map<int, Point3>, n: int): CoordsRecord
  {
    CoordsRecord(n, if n in camera then camera[n] else [], if n in world then Some(world[n]) else None)
  }

  function PixelNums(recs: seq<CoordsRecord>): (ns: seq<int>)
    ensures |ns| == |recs| && forall i :: 0 <= i < |recs| ==> ns[i] == recs[i].pixelNum
  {
    seq(|recs|, i requires 0 <= i < |recs| => recs[i].pixelNum)
  }

  /** The merge: one record per known pixel, in the set's ascending order. */
  method Merge(camera: map<int, seq<Option<Point2>>>, world: map<int, Point3>) returns (out: seq<CoordsRecord>)
    ensures Ordered.Increasing(PixelNums(out))
    ensures forall n :: n in PixelNums(out) <==> n in camera || n in world
    ensures forall i :: 0 <= i < |out| ==> out[i] == RecordFor(camera, world, out[i].pixelNum)
  {
    var known := camera.Keys + world.Keys;
    var order := Ordered.Elements(known);
    out := [];
    for i := 0 to |order|
      invariant |out| == i
      invariant forall k :: 0 <= k < i ==> out[k] == RecordFor(camera, world, order[k])
    {
      out := out + [RecordFor(camera, world, order[i])];
    }
    assert PixelNums(out) == order;
  }

  /**
   * ReadCoords: refuse when neither file is named, stop at the first
   * error of either reader, otherwise merge the two maps.
   */
  method ReadCoords(cameraPath: Option<string>, cameraFile: File, worldPath: Option<string>, worldFile: File,
                    atod: string -> Option<real>) returns (r: Result<seq<CoordsRecord>>)
    ensures cameraPath.None? && worldPath.None? ==> r == Fail(Error(InvalidArgument, "no paths specified"))
    ensures cameraPath.Some? && CameraCoordsOf(cameraPath.value, cameraFile).Fail? ==>
              r == Fail(CameraCoordsOf(cameraPath.value, cameraFile).error)
    ensures (cameraPath.Some? ==> CameraCoordsOf(cameraPath.value, cameraFile).Ok?) &&
            worldPath.Some? && WorldCoordsOf(worldPath.value, worldFile, atod).Fail? ==>
              r == Fail(WorldCoordsOf(worldPath.value, worldFile, atod).error)
    ensures r.Ok? ==>
              var camera := if cameraPath.Some? then CameraCoordsOf(cameraPath.value, cameraFile).value else map[];
              var world := if worldPath.Some? then WorldCoordsOf(worldPath.value, worldFile, atod).value else map[];
              && Ordered.Increasing(PixelNums(r.value))
              && (forall n :: n in PixelNums(r.value) <==> n in camera || n in world)
              && forall i :: 0 <= i < |r.value| ==> r.value[i] == RecordFor(camera, world, r.value[i].pixelNum)
  {
    if cameraPath.None? && worldPath.None? {
      return Fail(Error(InvalidArgument, "no paths specified"));
    }
    var camera := map[];
    if cameraPath.Some? {
      var result := ReadCameraCoords(cameraPath.value, cameraFile);
      if result.Fail? {
        return Fail(result.error);
      }
      camera := result.value;
    }
    var world := map[];
    if worldPath.Some? {
      var result := ReadWorldCoords(worldPath.value, worldFile, atod);
      if result.Fail? {
        return Fail(result.error);
      }
      world := result.value;
    }
    var out := Merge(camera, world);
    r := Ok(out);
  }

  /** ReadCoords' error test: no file named, and a file that cannot be opened. */
  method ReadCoordsErrors(atod: string -> Option<real>) returns (none: Result<seq<CoordsRecord>>, missing: Result<seq<CoordsRecord>>)
    ensures none == Fail(Error(InvalidArgument, "no paths specified"))
    ensures missing == Fail(Error(Unknown, "failed to open file"))
  {
    none := ReadCoords(None, None, None, None, atod);
    missing := ReadCoords(Some("nonexistent"), None, None, None, atod);
  }
}
