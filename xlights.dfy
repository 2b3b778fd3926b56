/*
 * xlights.cc: an xLights custom model is a grid of cells, each holding
 * the zero-based number of the pixel placed there. Pixels are placed by
 * integer cell; when two land in the same cell the lower number keeps it
 * and the other goes into the collisions. ModelToString writes the grid as
 * the CustomModel attribute: planes separated by '|', rows by ';', cells
 * by ',', an occupied cell as its pixel number plus one and an empty cell
 * as nothing.
 */
module XLights {
  import opened Wrappers
  import opened Text

  /** A model location, std::tuple<int, int, int>. */
  datatype Cell = Cell(x: int, y: int, z: int)

  datatype XLightsModel = XLightsModel(
    name: string,
    scalingFactor: real,
    points: map<Cell, int>,
    collisions: set<int>,
    xsize: int, ysize: int, zsize: int)

  /** One input pixel and the cell its scaled position falls in. */
  datatype Placement = Placement(num: int, cell: Cell)

  /** The grid and the collisions after placing the pixels in order. */
  datatype Grid = Grid(points: map<Cell, int>, collisions: set<int>)

  /**
   * The collision loop: a pixel takes a free cell; in an occupied cell the
   * lower number stays and the higher one is a collision.
   */
  function Indexed(placed: seq<Placement>): Grid
  {
    if |placed| == 0 then Grid(map[], {})
    else
      var g := Indexed(placed[..|placed| - 1]);
      var p := placed[|placed| - 1];
      if p.cell !in g.points then Grid(g.points[p.cell := p.num], g.collisions)
      else if p.num < g.points[p.cell] then Grid(g.points[p.cell := p.num], g.collisions + {g.points[p.cell]})
      else Grid(g.points, g.collisions + {p.num})
  }

  method Index(placed: seq<Placement>) returns (points: map<Cell, int>, collisions: set<int>)
    ensures Grid(points, collisions) == Indexed(placed)
  {
    points, collisions := map[], {};
    for i := 0 to |placed|
      invariant Grid(points, collisions) == Indexed(placed[..i])
    {
      assert placed[..i + 1][..i] == placed[..i];
      var p := placed[i];
      if p.cell !in points {
        points := points[p.cell := p.num];
      } else if p.num < points[p.cell] {
        collisions := collisions + {points[p.cell]};
        points := points[p.cell := p.num];
      } else {
        collisions := collisions + {p.num};
      }
    }
    assert placed[..|placed|] == placed;
  }

  /**
   * The occupied cells are exactly the cells some pixel was placed in, and
   * each keeps the lowest number placed in it.
   */
  lemma {:induction false} LowestWins(placed: seq<Placement>, c: Cell)
    ensures c in Indexed(placed).points <==> exists i :: 0 <= i < |placed| && placed[i].cell == c
    ensures c in Indexed(placed).points ==>
              && (exists i :: 0 <= i < |placed| && placed[i] == Placement(Indexed(placed).points[c], c))
              && forall i :: 0 <= i < |placed| && placed[i].cell == c ==> Indexed(placed).points[c] <= placed[i].num
  {
    if |placed| > 0 {
      var init := placed[..|placed| - 1];
      var last := |placed| - 1;
      LowestWins(init, c);
      assert forall i :: 0 <= i < |init| ==> init[i] == placed[i];
      var g := Indexed(init);
      if c in g.points {
        var i :| 0 <= i < |init| && init[i] == Placement(g.points[c], c);
        assert placed[i] == Placement(g.points[c], c);
      }
      if placed[last].cell == c {
        assert placed[last].cell == c;
      }
    }
  }

  /** Every collision is the number of some input pixel. */
  lemma {:induction false} CollisionsAreInputs(placed: seq<Placement>, n: int)
    requires n in Indexed(placed).collisions
    ensures exists i :: 0 <= i < |placed| && placed[i].num == n
  {
    var init := placed[..|placed| - 1];
    var g := Indexed(init);
    assert forall i :: 0 <= i < |init| ==> init[i] == placed[i];
    if n in g.collisions {
      CollisionsAreInputs(init, n);
      var i :| 0 <= i < |init| && init[i].num == n;
      assert placed[i].num == n;
    } else {
      var p := placed[|placed| - 1];
      if p.num != n {
        LowestWins(init, p.cell);
        var i :| 0 <= i < |init| && init[i] == Placement(g.points[p.cell], p.cell);
        assert placed[i].num == n;
      }
    }
  }

  predicate DistinctNums(placed: seq<Placement>)
  {
    forall i, j :: 0 <= i < j < |placed| ==> placed[i].num != placed[j].num
  }

  /**
   * With distinct pixel numbers each input ends up exactly once: it holds
   * its own cell, or it is a collision, never both; and no cell holds a
   * number placed in another cell.
   */
  lemma {:induction false} EachOnce(placed: seq<Placement>, i: int)
    requires DistinctNums(placed) && 0 <= i < |placed|
    ensures placed[i].cell in Indexed(placed).points
    ensures placed[i].num in Indexed(placed).collisions <==> Indexed(placed).points[placed[i].cell] != placed[i].num
    ensures forall c :: c in Indexed(placed).points && Indexed(placed).points[c] == placed[i].num ==> c == placed[i].cell
  {
    assert placed[i].cell in Indexed(placed).points by {
      LowestWins(placed, placed[i].cell);
    }
    HeldOnlyAtOwnCell(placed, i);
    var init := placed[..|placed| - 1];
    var g := Indexed(init);
    var last := |placed| - 1;
    var p := placed[last];
    assert forall k :: 0 <= k < |init| ==> init[k] == placed[k];
    assert DistinctNums(init);
    if i < last {
      EachOnce(init, i);
      var q := placed[i];
      assert q == init[i];
      if p.cell in g.points {
        LowestWins(init, p.cell);
        var k :| 0 <= k < |init| && init[k] == Placement(g.points[p.cell], p.cell);
        assert placed[k] == init[k];
        assert g.points[p.cell] != p.num;
      }
    } else {
      NotACollision(init, p.num);
      if p.cell in g.points {
        LowestWins(init, p.cell);
        var k :| 0 <= k < |init| && init[k] == Placement(g.points[p.cell], p.cell);
        assert placed[k] == init[k];
        assert g.points[p.cell] != p.num;
      }
    }
  }

  /** With distinct pixel numbers, a cell holding pixel i's number is pixel i's cell. */
  lemma HeldOnlyAtOwnCell(placed: seq<Placement>, i: int)
    requires DistinctNums(placed) && 0 <= i < |placed|
    ensures forall c :: c in Indexed(placed).points && Indexed(placed).points[c] == placed[i].num ==> c == placed[i].cell
  {
    var g := Indexed(placed);
    forall c | c in g.points && g.points[c] == placed[i].num
      ensures c == placed[i].cell
    {
      LowestWins(placed, c);
      var j :| 0 <= j < |placed| && placed[j] == Placement(g.points[c], c);
      assert placed[j].num == placed[i].num;
    }
  }

  /** A number no input pixel has is not a collision. */
  lemma NotACollision(placed: seq<Placement>, n: int)
    requires forall k :: 0 <= k < |placed| ==> placed[k].num != n
    ensures n !in Indexed(placed).collisions
  {
    if n in Indexed(placed).collisions {
      CollisionsAreInputs(placed, n);
    }
  }

  /**
   * Two pairs sharing a cell, as in the collision test: 0 then 1 in one
   * cell, and 3 then 2 in another (the test's second pair in reverse
   * order, so that the lower number also displaces a higher one). The lower
   * number keeps each cell.
   */
  lemma CollisionExample()
    ensures var a, b := Cell(0, 0, 0), Cell(5, 0, 0);
            Indexed([Placement(0, a), Placement(1, a), Placement(3, b), Placement(2, b)])
              == Grid(map[a := 0, b := 2], {1, 3})
  {
    var a, b := Cell(0, 0, 0), Cell(5, 0, 0);
    var placed := [Placement(0, a), Placement(1, a), Placement(3, b), Placement(2, b)];
    assert placed[..3][..2] == [Placement(0, a), Placement(1, a)];
    assert placed[..3][..2][..1] == [Placement(0, a)];
    assert [Placement(0, a)][..0] == [];
    assert Indexed([Placement(0, a)]) == Grid(map[a := 0], {});
    assert Indexed(placed[..3][..2]) == Grid(map[a := 0], {1});
    assert Indexed(placed[..3]) == Grid(map[a := 0, b := 3], {1});
    assert placed[..4] == placed;
  }

  // ---------------------------------------------------------------- ModelToString

  function Count(n: int): nat { if n < 0 then 0 else n }

  /** One cell: the pixel number plus one, or nothing for an empty cell. */
  function CellText(points: map<Cell, int>, x: int, y: int, z: int): string
  {
    if Cell(x, y, z) in points then IntToString(points[Cell(x, y, z)] + 1) else ""
  }

  function RowCells(points: map<Cell, int>, xsize: int, y: int, z: int): (cells: seq<string>)
    ensures |cells| == Count(xsize) && forall x :: 0 <= x < |cells| ==> cells[x] == CellText(points, x, y, z)
  {
    seq(Count(xsize), x requires 0 <= x < Count(xsize) => CellText(points, x, y, z))
  }

  function RowText(points: map<Cell, int>, xsize: int, y: int, z: int): string
  {
    Join(RowCells(points, xsize, y, z), ",")
  }

  function PlaneRows(points: map<Cell, int>, xsize: int, ysize: int, z: int): (rows: seq<string>)
    ensures |rows| == Count(ysize) && forall y :: 0 <= y < |rows| ==> rows[y] == RowText(points, xsize, y, z)
  {
    seq(Count(ysize), y requires 0 <= y < Count(ysize) => RowText(points, xsize, y, z))
  }

  function PlaneText(points: map<Cell, int>, xsize: int, ysize: int, z: int): string
  {
    Join(PlaneRows(points, xsize, ysize, z), ";")
  }

  function Planes(m: XLightsModel): (planes: seq<string>)
    ensures |planes| == Count(m.zsize) && forall z :: 0 <= z < |planes| ==> planes[z] == PlaneText(m.points, m.xsize, m.ysize, z)
  {
    seq(Count(m.zsize), z requires 0 <= z < Count(m.zsize) => PlaneText(m.points, m.xsize, m.ysize, z))
  }

  /** The CustomModel text of a model. */
  function ModelText(m: XLightsModel): string
  {
    Join(Planes(m), "|")
  }

  /** Appending one more part to a join adds the separator and the part. */
  lemma {:induction false} JoinSnoc(parts: seq<string>, sep: string, p: string)
    ensures Join(parts + [p], sep) == if |parts| == 0 then p else Join(parts, sep) + sep + p
  {
    if |parts| > 1 {
      JoinSnoc(parts[1..], sep, p);
      assert (parts + [p])[1..] == parts[1..] + [p];
    } else if |parts| == 1 {
      assert (parts + [p])[1..] == [p];
    }
  }

  /** A join holds no character that neither the parts nor the separator hold. */
  lemma {:induction false} JoinAvoids(parts: seq<string>, sep: string, c: char)
    requires c !in sep && forall i :: 0 <= i < |parts| ==> c !in parts[i]
    ensures c !in Join(parts, sep)
  {
    if |parts| > 1 {
      JoinAvoids(parts[1..], sep, c);
      assert parts[0] == parts[0];
    }
  }

  /** The row loop: the text of each cell of row y of plane z. */
  method RowLine(points: map<Cell, int>, xsize: int, y: int, z: int) returns (line: seq<string>)
    ensures line == RowCells(points, xsize, y, z)
  {
    line := [];
    var x := 0;
    while x < xsize
      invariant 0 <= x <= Count(xsize) && |line| == x
      invariant forall k :: 0 <= k < x ==> line[k] == CellText(points, k, y, z)
    {
      if Cell(x, y, z) in points {
        line := line + [IntToString(points[Cell(x, y, z)] + 1)];
      } else {
        line := line + [""];
      }
      x := x + 1;
    }
  }

  /** Joining one more of the parts: the separator, unless it is the first, then the part. */
  lemma JoinStep(parts: seq<string>, k: int, sep: string)
    requires 0 <= k < |parts|
    ensures Join(parts[..k + 1], sep) == Join(parts[..k], sep) + ((if k != 0 then sep else "") + parts[k])
  {
    var init := parts[..k];
    assert parts[..k + 1] == init + [parts[k]];
    assert Join(init + [parts[k]], sep) == if |init| == 0 then parts[k] else Join(init, sep) + sep + parts[k] by {
      JoinSnoc(init, sep, parts[k]);
    }
  }

  /** One plane: its rows, each after a ';' but the first. */
  method AppendPlane(out: string, m: XLightsModel, z: int) returns (out': string)
    ensures out' == out + PlaneText(m.points, m.xsize, m.ysize, z)
  {
    out' := out;
    var y := 0;
    ghost var rows := PlaneRows(m.points, m.xsize, m.ysize, z);
    while y < m.ysize
      invariant 0 <= y <= Count(m.ysize)
      invariant out' == out + Join(rows[..y], ";")
    {
      var line := RowLine(m.points, m.xsize, y, z);
      var piece := (if y != 0 then ";" else "") + Join(line, ",");
      JoinStep(rows, y, ";");
      out' := out' + piece;
      y := y + 1;
    }
    assert rows[..Count(m.ysize)] == rows;
  }

  /** ModelToString: the planes, each after a '|' but the first. */
  method ModelToString(m: XLightsModel) returns (out: string)
    ensures out == ModelText(m)
  {
    out := "";
    var z := 0;
    ghost var planes := Planes(m);
    while z < m.zsize
      invariant 0 <= z <= Count(m.zsize)
      invariant out == Join(planes[..z], "|")
    {
      var plane := AppendPlane(if z != 0 then "|" else "", m, z);
      JoinStep(planes, z, "|");
      out := out + plane;
      z := z + 1;
    }
    assert planes[..Count(m.zsize)] == planes;
  }

  /** Pixel numbers are zero-based, so every cell prints as plain digits. */
  predicate NonNegative(m: XLightsModel)
  {
    forall c :: c in m.points ==> m.points[c] >= 0
  }

  lemma CellDigits(points: map<Cell, int>, x: int, y: int, z: int)
    requires forall c :: c in points ==> points[c] >= 0
    ensures AllDigits(CellText(points, x, y, z))
  {
  }

  lemma DigitsAvoid(s: string, c: char)
    requires AllDigits(s) && !IsDigit(c)
    ensures c !in s
  {
  }

  lemma RowAvoids(points: map<Cell, int>, xsize: int, y: int, z: int, c: char)
    requires forall k :: k in points ==> points[k] >= 0
    requires c == ';' || c == '|'
    ensures c !in RowText(points, xsize, y, z)
  {
    var cells := RowCells(points, xsize, y, z);
    forall x | 0 <= x < |cells|
      ensures c !in cells[x]
    {
      CellDigits(points, x, y, z);
      DigitsAvoid(cells[x], c);
    }
    JoinAvoids(cells, ",", c);
  }

  lemma PlaneAvoids(points: map<Cell, int>, xsize: int, ysize: int, z: int)
    requires forall k :: k in points ==> points[k] >= 0
    ensures '|' !in PlaneText(points, xsize, ysize, z)
  {
    var rows := PlaneRows(points, xsize, ysize, z);
    forall y | 0 <= y < |rows|
      ensures '|' !in rows[y]
    {
      RowAvoids(points, xsize, y, z, '|');
    }
    JoinAvoids(rows, ";", '|');
  }

  /**
   * The CustomModel text splits back into the grid: on '|' into zsize
   * planes, each on ';' into ysize rows, each on ',' into xsize cells, and
   * cell (x, y, z) is the text of that cell.
   */
  lemma ModelTextSplits(m: XLightsModel, x: int, y: int, z: int)
    requires NonNegative(m)
    requires 0 <= x < m.xsize && 0 <= y < m.ysize && 0 <= z < m.zsize
    ensures var planes := Split(ModelText(m), '|');
            && |planes| == m.zsize
            && var rows := Split(planes[z], ';');
               && |rows| == m.ysize
               && var cells := Split(rows[y], ',');
                  && |cells| == m.xsize
                  && cells[x] == CellText(m.points, x, y, z)
  {
    var planes := Planes(m);
    forall k | 0 <= k < |planes|
      ensures '|' !in planes[k]
    {
      PlaneAvoids(m.points, m.xsize, m.ysize, k);
    }
    SplitJoin(planes, '|');
    var rows := PlaneRows(m.points, m.xsize, m.ysize, z);
    forall k | 0 <= k < |rows|
      ensures ';' !in rows[k]
    {
      RowAvoids(m.points, m.xsize, k, z, ';');
    }
    SplitJoin(rows, ';');
    var cells := RowCells(m.points, m.xsize, y, z);
    forall k | 0 <= k < |cells|
      ensures ',' !in cells[k]
    {
      CellDigits(m.points, k, y, z);
      DigitsAvoid(cells[k], ',');
    }
    SplitJoin(cells, ',');
  }

  /** An occupied cell reads back as its pixel number plus one; an empty cell is empty. */
  lemma CellTextMeans(points: map<Cell, int>, x: int, y: int, z: int)
    requires forall c :: c in points ==> 0 <= points[c] < Int32Max
    ensures Cell(x, y, z) in points ==> AtoiInt(CellText(points, x, y, z)) == Some(points[Cell(x, y, z)] + 1)
    ensures Cell(x, y, z) !in points <==> CellText(points, x, y, z) == ""
  {
    if Cell(x, y, z) in points {
      AtoiIntToString(points[Cell(x, y, z)] + 1);
    }
  }

  /** A 2 x 1 x 2 grid holding pixel 0 at the first cell of plane 0 and pixel 9 at the last cell of plane 1. */
  lemma ModelTextExample(name: string, factor: real)
    ensures ModelText(XLightsModel(name, factor, map[Cell(0, 0, 0) := 0, Cell(1, 0, 1) := 9], {}, 2, 1, 2)) == "1,|,10"
  {
    var pts := map[Cell(0, 0, 0) := 0, Cell(1, 0, 1) := 9];
    var m := XLightsModel(name, factor, pts, {}, 2, 1, 2);
    assert IntToString(1) == "1";
    assert NatToString(10) == "10" by {
      assert NatToString(1) == "1";
    }
    assert RowCells(pts, 2, 0, 0) == ["1", ""];
    assert RowCells(pts, 2, 0, 1) == ["", "10"];
    assert Join(["1", ""], ",") == "1,";
    assert Join(["", "10"], ",") == ",10";
    assert PlaneRows(pts, 2, 1, 0) == ["1,"];
    assert PlaneRows(pts, 2, 1, 1) == [",10"];
    assert Planes(m) == ["1,", ",10"];
    assert Join(["1,", ",10"], "|") == "1,|,10";
  }
}
