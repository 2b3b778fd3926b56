/*
 * The segmenter's browser page: the set of lit pixels kept as a sorted list
 * of inclusive ranges with a gap between neighbours (class Ranges), and the
 * cursor that walks the pixels and records each one it leaves as on or off.
 */
module RangeEditor {
  import Segmenter
  import Text

  type Range = Segmenter.Range

  // ---------------------------------------------------------------------
  // The range list and its invariant

  /**
   * The invariant the Ranges methods keep: every range has from <= to, and
   * any two ranges are in order with at least one pixel between them.
   */
  predicate WellFormed(rs: seq<Range>)
  {
    (forall i :: 0 <= i < |rs| ==> rs[i].from <= rs[i].to)
    && (forall i, j :: 0 <= i < j < |rs| ==> rs[i].to + 1 < rs[j].from)
  }

  /** The same invariant stated only between neighbours, as the page's code relies on it. */
  predicate NeighboursApart(rs: seq<Range>)
  {
    (forall i :: 0 <= i < |rs| ==> rs[i].from <= rs[i].to)
    && (forall i :: 0 < i < |rs| ==> rs[i - 1].to + 1 < rs[i].from)
  }

  /** The neighbour form implies the pairwise form (and trivially back). */
  lemma NeighboursSuffice(rs: seq<Range>)
    requires NeighboursApart(rs)
    ensures WellFormed(rs)
  {
    forall i, j | 0 <= i < j < |rs|
      ensures rs[i].to + 1 < rs[j].from
    {
      NeighboursChain(rs, i, j);
    }
  }

  lemma {:induction false} NeighboursChain(rs: seq<Range>, i: nat, j: nat)
    requires NeighboursApart(rs) && i < j < |rs|
    ensures rs[i].to + 1 < rs[j].from
    decreases j - i
  {
    if i + 1 < j {
      NeighboursChain(rs, i + 1, j);
    }
  }

  /** Pixel n is on in the list `a + b` exactly when it is on in a or in b. */
  lemma CoveredConcat(a: seq<Range>, b: seq<Range>, n: int)
    ensures Segmenter.Covered(a + b, n) <==> Segmenter.Covered(a, n) || Segmenter.Covered(b, n)
  {
    if Segmenter.Covered(a + b, n) {
      var k :| 0 <= k < |a + b| && (a + b)[k].from <= n <= (a + b)[k].to;
      if k < |a| {
        assert a[k] == (a + b)[k];
      } else {
        assert b[k - |a|] == (a + b)[k];
      }
    }
    if Segmenter.Covered(a, n) {
      var k :| 0 <= k < |a| && a[k].from <= n <= a[k].to;
      assert (a + b)[k] == a[k];
    }
    if Segmenter.Covered(b, n) {
      var k :| 0 <= k < |b| && b[k].from <= n <= b[k].to;
      assert (a + b)[|a| + k] == b[k];
    }
  }

  /** In a well-formed list every lit pixel lies between the first from and the last to. */
  lemma CoveredBounds(rs: seq<Range>, n: int)
    requires WellFormed(rs) && Segmenter.Covered(rs, n)
    ensures |rs| > 0 && rs[0].from <= n <= rs[|rs| - 1].to
  {
    var k :| 0 <= k < |rs| && rs[k].from <= n <= rs[k].to;
  }

  lemma WellFormedConcat(a: seq<Range>, b: seq<Range>)
    requires WellFormed(a) && WellFormed(b)
    requires |a| > 0 && |b| > 0 ==> a[|a| - 1].to + 1 < b[0].from
    ensures WellFormed(a + b)
  {
    var c := a + b;
    forall i | 0 <= i < |c|
      ensures c[i].from <= c[i].to
    {
      if i < |a| {
        assert c[i] == a[i];
      } else {
        assert c[i] == b[i - |a|];
      }
    }
    forall i | 0 < i < |c|
      ensures c[i - 1].to + 1 < c[i].from
    {
      if i < |a| {
        assert c[i - 1] == a[i - 1] && c[i] == a[i];
      } else if i == |a| {
        assert c[i - 1] == a[|a| - 1] && c[i] == b[0];
      } else {
        assert c[i - 1] == b[i - 1 - |a|] && c[i] == b[i - |a|];
      }
    }
    NeighboursSuffice(c);
  }

  lemma WellFormedSlice(rs: seq<Range>, lo: nat, hi: nat)
    requires WellFormed(rs) && lo <= hi <= |rs|
    ensures WellFormed(rs[lo..hi])
  {
    var s := rs[lo..hi];
    forall i, j | 0 <= i < j < |s|
      ensures s[i].to + 1 < s[j].from
    {
      assert s[i] == rs[lo + i] && s[j] == rs[lo + j];
    }
  }

  /**
   * Replacing the ranges rs[lo..hi] by m: the result is well-formed when m
   * fits between its neighbours, and a pixel is on in it exactly when it is
   * on in the part before, in m, or in the part after; the parts before and
   * after lie below rs[lo-1].to and above rs[hi].from.
   */
  lemma Splice(rs: seq<Range>, lo: nat, hi: nat, m: seq<Range>)
    requires WellFormed(rs) && lo <= hi <= |rs| && WellFormed(m)
    requires lo > 0 && |m| > 0 ==> rs[lo - 1].to + 1 < m[0].from
    requires hi < |rs| && |m| > 0 ==> m[|m| - 1].to + 1 < rs[hi].from
    ensures WellFormed(rs[..lo] + m + rs[hi..])
    ensures forall n :: Segmenter.Covered(rs[..lo] + m + rs[hi..], n) <==>
      Segmenter.Covered(rs[..lo], n) || Segmenter.Covered(m, n) || Segmenter.Covered(rs[hi..], n)
    ensures forall n :: Segmenter.Covered(rs, n) <==>
      Segmenter.Covered(rs[..lo], n) || Segmenter.Covered(rs[lo..hi], n) || Segmenter.Covered(rs[hi..], n)
    ensures forall n :: Segmenter.Covered(rs[..lo], n) ==> lo > 0 && n <= rs[lo - 1].to
    ensures forall n :: Segmenter.Covered(rs[hi..], n) ==> hi < |rs| && rs[hi].from <= n
  {
    SpliceWellFormed(rs, lo, hi, m);
    assert rs == rs[..lo] + rs[lo..hi] + rs[hi..];
    forall n
      ensures Segmenter.Covered(rs[..lo] + m + rs[hi..], n) <==>
        Segmenter.Covered(rs[..lo], n) || Segmenter.Covered(m, n) || Segmenter.Covered(rs[hi..], n)
      ensures Segmenter.Covered(rs, n) <==>
        Segmenter.Covered(rs[..lo], n) || Segmenter.Covered(rs[lo..hi], n) || Segmenter.Covered(rs[hi..], n)
    {
      CoveredThree(rs[..lo], m, rs[hi..], n);
      CoveredThree(rs[..lo], rs[lo..hi], rs[hi..], n);
    }
    forall n
      ensures Segmenter.Covered(rs[..lo], n) ==> lo > 0 && n <= rs[lo - 1].to
      ensures Segmenter.Covered(rs[hi..], n) ==> hi < |rs| && rs[hi].from <= n
    {
      SliceBounds(rs, lo, hi, n);
    }
  }

  lemma SpliceWellFormed(rs: seq<Range>, lo: nat, hi: nat, m: seq<Range>)
    requires WellFormed(rs) && lo <= hi <= |rs| && WellFormed(m)
    requires lo > 0 && |m| > 0 ==> rs[lo - 1].to + 1 < m[0].from
    requires hi < |rs| && |m| > 0 ==> m[|m| - 1].to + 1 < rs[hi].from
    ensures WellFormed(rs[..lo] + m + rs[hi..])
  {
    var before, after := rs[..lo], rs[hi..];
    WellFormedSlice(rs, 0, lo);
    WellFormedSlice(rs, hi, |rs|);
    assert rs[0..lo] == before && rs[hi..|rs|] == after;
    WellFormedConcat(before, m);
    var bm := before + m;
    if |bm| > 0 && |after| > 0 {
      assert after[0] == rs[hi];
      if |m| > 0 {
        assert bm[|bm| - 1] == m[|m| - 1];
      } else {
        assert bm[|bm| - 1] == rs[lo - 1];
        assert rs[lo - 1].to + 1 < rs[hi].from;
      }
    }
    WellFormedConcat(bm, after);
  }

  lemma CoveredThree(a: seq<Range>, m: seq<Range>, b: seq<Range>, n: int)
    ensures Segmenter.Covered(a + m + b, n) <==>
      Segmenter.Covered(a, n) || Segmenter.Covered(m, n) || Segmenter.Covered(b, n)
  {
    CoveredConcat(a + m, b, n);
    CoveredConcat(a, m, n);
  }

  /** The ranges before index lo end by rs[lo-1].to; those from index hi start at rs[hi].from. */
  lemma SliceBounds(rs: seq<Range>, lo: nat, hi: nat, n: int)
    requires WellFormed(rs) && lo <= hi <= |rs|
    ensures Segmenter.Covered(rs[..lo], n) ==> lo > 0 && n <= rs[lo - 1].to
    ensures Segmenter.Covered(rs[hi..], n) ==> hi < |rs| && rs[hi].from <= n
  {
    if Segmenter.Covered(rs[..lo], n) {
      WellFormedSlice(rs, 0, lo);
      assert rs[0..lo] == rs[..lo];
      CoveredBounds(rs[..lo], n);
    }
    if Segmenter.Covered(rs[hi..], n) {
      WellFormedSlice(rs, hi, |rs|);
      assert rs[hi..|rs|] == rs[hi..];
      CoveredBounds(rs[hi..], n);
    }
  }

  /** The set after an insert: the old set plus num. */
  ghost predicate Inserted(old_: seq<Range>, new_: seq<Range>, num: int)
  {
    forall n :: Segmenter.Covered(new_, n) <==> Segmenter.Covered(old_, n) || n == num
  }

  /** The set after a remove: the old set without num. */
  ghost predicate Removed(old_: seq<Range>, new_: seq<Range>, num: int)
  {
    forall n :: Segmenter.Covered(new_, n) <==> Segmenter.Covered(old_, n) && n != num
  }

  /**
   * Where the scan of get, insert and remove stops: the first range whose
   * end is at or after num. num is on exactly when that range starts at or
   * before it.
   */
  lemma Locate(rs: seq<Range>, i: nat, num: int)
    requires WellFormed(rs) && i < |rs|
    requires forall j :: 0 <= j < i ==> rs[j].to < num
    requires num <= rs[i].to
    ensures Segmenter.Covered(rs, num) <==> rs[i].from <= num
  {
    if Segmenter.Covered(rs, num) {
      var k :| 0 <= k < |rs| && rs[k].from <= num <= rs[k].to;
      assert k <= i || rs[i].to + 1 < rs[k].from;
    }
  }

  /** When every range ends before num, num is off. */
  lemma PastTheEnd(rs: seq<Range>, num: int)
    requires forall j :: 0 <= j < |rs| ==> rs[j].to < num
    ensures !Segmenter.Covered(rs, num)
  {
  }

  /** A one-range list lights exactly that range. */
  lemma CoveredOne(r: Range, n: int)
    ensures Segmenter.Covered([r], n) <==> r.from <= n <= r.to
  {
    if r.from <= n <= r.to {
      assert [r][0] == r;
    }
  }

  /**
   * Replacing one range by another that still fits between its neighbours:
   * the pixels of the old range leave the set and those of the new one join.
   */
  lemma Replace(rs: seq<Range>, i: nat, x: Range)
    requires WellFormed(rs) && i < |rs| && x.from <= x.to
    requires i > 0 ==> rs[i - 1].to + 1 < x.from
    requires i + 1 < |rs| ==> x.to + 1 < rs[i + 1].from
    ensures WellFormed(rs[i := x])
    ensures forall n :: Segmenter.Covered(rs[i := x], n) <==>
      (Segmenter.Covered(rs, n) && !(rs[i].from <= n <= rs[i].to)) || x.from <= n <= x.to
    ensures forall n :: rs[i].from <= n <= rs[i].to ==> Segmenter.Covered(rs, n)
  {
    Splice(rs, i, i + 1, [x]);
    assert rs[i..i + 1] == [rs[i]];
    assert rs[i := x] == rs[..i] + [x] + rs[i + 1..];
    if i > 0 {
      assert rs[i - 1].to + 1 < rs[i].from;
    }
    if i + 1 < |rs| {
      assert rs[i].to + 1 < rs[i + 1].from;
    }
    forall n
      ensures Segmenter.Covered(rs[i := x], n) <==>
        (Segmenter.Covered(rs, n) && !(rs[i].from <= n <= rs[i].to)) || x.from <= n <= x.to
    {
      CoveredOne(x, n);
      CoveredOne(rs[i], n);
    }
  }

  // Each branch of insert: the new list is well-formed and is the old set plus num.

  /** num closes the one-pixel gap between rs[i-1] and rs[i]: the two ranges merge. */
  lemma InsertJoin(rs: seq<Range>, i: nat, num: int)
    requires WellFormed(rs) && 0 < i < |rs|
    requires rs[i - 1].to + 1 == num && rs[i].from - 1 == num
    ensures var new_ := rs[..i - 1] + [Segmenter.Range(rs[i - 1].from, rs[i].to)] + rs[i + 1..];
            WellFormed(new_) && Inserted(rs, new_, num)
  {
    var x := Segmenter.Range(rs[i - 1].from, rs[i].to);
    if i + 1 < |rs| {
      assert rs[i].to + 1 < rs[i + 1].from;
    }
    if i - 1 > 0 {
      assert rs[i - 2].to + 1 < rs[i - 1].from;
    }
    Splice(rs, i - 1, i + 1, [x]);
    assert rs[i - 1..i + 1] == [rs[i - 1]] + [rs[i]];
    forall n
      ensures Segmenter.Covered(rs[i - 1..i + 1], n) <==> rs[i - 1].from <= n <= rs[i - 1].to || rs[i].from <= n <= rs[i].to
      ensures Segmenter.Covered([x], n) <==> x.from <= n <= x.to
    {
      CoveredConcat([rs[i - 1]], [rs[i]], n);
      CoveredOne(rs[i - 1], n);
      CoveredOne(rs[i], n);
      CoveredOne(x, n);
    }
  }

  /** num extends rs[i-1] upwards without reaching rs[i]. */
  lemma InsertExtendPrev(rs: seq<Range>, i: nat, num: int)
    requires WellFormed(rs) && 0 < i <= |rs|
    requires rs[i - 1].to + 1 == num
    requires i < |rs| ==> num < rs[i].from - 1
    ensures var new_ := rs[i - 1 := Segmenter.Range(rs[i - 1].from, num)];
            WellFormed(new_) && Inserted(rs, new_, num)
  {
    if i - 1 > 0 {
      assert rs[i - 2].to + 1 < rs[i - 1].from;
    }
    Replace(rs, i - 1, Segmenter.Range(rs[i - 1].from, num));
  }

  /** num extends rs[i] downwards without reaching rs[i-1]. */
  lemma InsertExtendNext(rs: seq<Range>, i: nat, num: int)
    requires WellFormed(rs) && i < |rs|
    requires rs[i].from - 1 == num
    requires i > 0 ==> rs[i - 1].to + 1 < num
    ensures var new_ := rs[i := Segmenter.Range(num, rs[i].to)];
            WellFormed(new_) && Inserted(rs, new_, num)
  {
    if i + 1 < |rs| {
      assert rs[i].to + 1 < rs[i + 1].from;
    }
    Replace(rs, i, Segmenter.Range(num, rs[i].to));
  }

  /** num is apart from both neighbours: a new one-pixel range goes between them. */
  lemma InsertAlone(rs: seq<Range>, i: nat, num: int)
    requires WellFormed(rs) && i <= |rs|
    requires i < |rs| ==> num < rs[i].from - 1
    requires i > 0 ==> rs[i - 1].to + 1 < num
    ensures var new_ := rs[..i] + [Segmenter.Range(num, num)] + rs[i..];
            WellFormed(new_) && Inserted(rs, new_, num)
  {
    var x := Segmenter.Range(num, num);
    Splice(rs, i, i, [x]);
    assert rs[i..i] == [];
    forall n
      ensures Segmenter.Covered(rs[..i] + [x] + rs[i..], n) <==> Segmenter.Covered(rs, n) || n == num
    {
      CoveredOne(x, n);
    }
  }

  // Each branch of remove: the new list is well-formed and is the old set without num.

  /** num is a one-pixel range: the range goes. */
  lemma RemoveSingle(rs: seq<Range>, i: nat, num: int)
    requires WellFormed(rs) && i < |rs| && rs[i].from == num == rs[i].to
    ensures var new_ := rs[..i] + rs[i + 1..];
            WellFormed(new_) && Removed(rs, new_, num)
  {
    Splice(rs, i, i + 1, []);
    assert rs[i..i + 1] == [rs[i]];
    assert rs[..i] + [] + rs[i + 1..] == rs[..i] + rs[i + 1..];
    forall n
      ensures Segmenter.Covered(rs[..i] + rs[i + 1..], n) <==> Segmenter.Covered(rs, n) && n != num
    {
      CoveredOne(rs[i], n);
    }
  }

  /** num is the first pixel of a longer range: the range starts one later. */
  lemma RemoveFirst(rs: seq<Range>, i: nat, num: int)
    requires WellFormed(rs) && i < |rs| && rs[i].from == num < rs[i].to
    ensures var new_ := rs[i := Segmenter.Range(num + 1, rs[i].to)];
            WellFormed(new_) && Removed(rs, new_, num)
  {
    if i > 0 {
      assert rs[i - 1].to + 1 < rs[i].from;
    }
    if i + 1 < |rs| {
      assert rs[i].to + 1 < rs[i + 1].from;
    }
    Replace(rs, i, Segmenter.Range(num + 1, rs[i].to));
  }

  /** num is the last pixel of a longer range: the range ends one earlier. */
  lemma RemoveLast(rs: seq<Range>, i: nat, num: int)
    requires WellFormed(rs) && i < |rs| && rs[i].from < num == rs[i].to
    ensures var new_ := rs[i := Segmenter.Range(rs[i].from, num - 1)];
            WellFormed(new_) && Removed(rs, new_, num)
  {
    if i > 0 {
      assert rs[i - 1].to + 1 < rs[i].from;
    }
    if i + 1 < |rs| {
      assert rs[i].to + 1 < rs[i + 1].from;
    }
    Replace(rs, i, Segmenter.Range(rs[i].from, num - 1));
  }

  /** num is inside a range: the range splits around it. */
  lemma RemoveSplit(rs: seq<Range>, i: nat, num: int)
    requires WellFormed(rs) && i < |rs| && rs[i].from < num < rs[i].to
    ensures var new_ := rs[..i] + [Segmenter.Range(rs[i].from, num - 1), Segmenter.Range(num + 1, rs[i].to)] + rs[i + 1..];
            WellFormed(new_) && Removed(rs, new_, num)
  {
    var m := [Segmenter.Range(rs[i].from, num - 1), Segmenter.Range(num + 1, rs[i].to)];
    if i > 0 {
      assert rs[i - 1].to + 1 < rs[i].from;
    }
    if i + 1 < |rs| {
      assert rs[i].to + 1 < rs[i + 1].from;
    }
    Splice(rs, i, i + 1, m);
    assert rs[i..i + 1] == [rs[i]];
    assert m == [m[0]] + [m[1]];
    forall n
      ensures Segmenter.Covered(m, n) <==> rs[i].from <= n <= rs[i].to && n != num
      ensures Segmenter.Covered(rs[i..i + 1], n) <==> rs[i].from <= n <= rs[i].to
    {
      CoveredConcat([m[0]], [m[1]], n);
      CoveredOne(m[0], n);
      CoveredOne(m[1], n);
      CoveredOne(rs[i], n);
    }
  }

  /**
   * A well-formed list is determined by its set: two well-formed lists that
   * light the same pixels are equal. So insert and remove have exactly one
   * possible result.
   */
  lemma {:induction false} Canonical(a: seq<Range>, b: seq<Range>)
    requires WellFormed(a) && WellFormed(b)
    requires forall n :: Segmenter.Covered(a, n) <==> Segmenter.Covered(b, n)
    ensures a == b
    decreases |a|
  {
    if |a| > 0 {
      assert Segmenter.Covered(a, a[0].from);
    }
    if |b| > 0 {
      assert Segmenter.Covered(b, b[0].from);
    }
    if |a| == 0 || |b| == 0 {
      return;
    }
    CoveredFirst(a, b[0].from);
    CoveredFirst(b, a[0].from);
    assert a[0].from == b[0].from;
    RunEnd(a, b);
    RunEnd(b, a);
    assert a[0].to == b[0].to;
    forall n
      ensures Segmenter.Covered(a[1..], n) <==> Segmenter.Covered(b[1..], n)
    {
      Rest(a, n);
      Rest(b, n);
    }
    WellFormedSlice(a, 1, |a|);
    WellFormedSlice(b, 1, |b|);
    assert a[1..|a|] == a[1..] && b[1..|b|] == b[1..];
    Canonical(a[1..], b[1..]);
    assert a == [a[0]] + a[1..] && b == [b[0]] + b[1..];
  }

  lemma CoveredFirst(rs: seq<Range>, n: int)
    requires WellFormed(rs) && Segmenter.Covered(rs, n)
    ensures |rs| > 0 && rs[0].from <= n
  {
    CoveredBounds(rs, n);
  }

  /** The pixels after the first range of a well-formed list are those of the rest. */
  lemma Rest(rs: seq<Range>, n: int)
    requires WellFormed(rs) && |rs| > 0
    ensures Segmenter.Covered(rs[1..], n) <==> Segmenter.Covered(rs, n) && rs[0].to < n
  {
    assert rs == [rs[0]] + rs[1..];
    CoveredConcat([rs[0]], rs[1..], n);
    if Segmenter.Covered(rs[1..], n) {
      var k :| 0 <= k < |rs[1..]| && rs[1..][k].from <= n <= rs[1..][k].to;
      assert rs[1 + k] == rs[1..][k];
    }
  }

  /** The first runs of two well-formed lists with the same set and the same start end together. */
  lemma RunEnd(a: seq<Range>, b: seq<Range>)
    requires WellFormed(a) && WellFormed(b) && |a| > 0 && |b| > 0 && a[0].from == b[0].from
    requires forall n :: Segmenter.Covered(a, n) <==> Segmenter.Covered(b, n)
    ensures a[0].to <= b[0].to
  {
    var n := if a[0].to < b[0].to + 1 then a[0].to else b[0].to + 1;
    assert a[0].from <= n <= a[0].to;
    assert Segmenter.Covered(a, n);
    assert forall j :: 0 < j < |b| ==> b[0].to + 1 < b[j].from;
    var k :| 0 <= k < |b| && b[k].from <= n <= b[k].to;
  }

  // ---------------------------------------------------------------------
  // class Ranges

  /** What get returns: a boolean, or undefined when num lies beyond every range. */
  datatype GetResult = Undefined | Bool(on: bool)

  /** JavaScript truthiness of a get result. */
  predicate Truthy(g: GetResult)
  {
    g.Bool? && g.on
  }

  /** One range as toString shows it: "a" or "a-b". */
  function RangeText(r: Range): string
  {
    if r.from == r.to then Text.IntToString(r.from)
    else Text.IntToString(r.from) + "-" + Text.IntToString(r.to)
  }

  /** toString: "empty", or every range's text joined by ", ". */
  function ToString(rs: seq<Range>): (s: string)
    ensures s == "empty" <==> |rs| == 0
  {
    if |rs| == 0 then "empty"
    else
      TextsNotEmpty(rs);
      Text.Join(RangeTexts(rs), ", ")
  }

  function RangeTexts(rs: seq<Range>): (ts: seq<string>)
    ensures |ts| == |rs|
  {
    seq(|rs|, i requires 0 <= i < |rs| => RangeText(rs[i]))
  }

  /** No range text begins with 'e', so no join of them is "empty". */
  lemma TextsNotEmpty(rs: seq<Range>)
    requires |rs| > 0
    ensures Text.Join(RangeTexts(rs), ", ") != "empty"
  {
    var ts := RangeTexts(rs);
    IntToStringStart(rs[0].from);
    JoinStart(ts, ", ");
  }

  lemma IntToStringStart(i: int)
    ensures |Text.IntToString(i)| > 0 && Text.IntToString(i)[0] != 'e'
  {
    if i >= 0 {
      assert Text.IsDigit(Text.NatToString(i)[0]);
    } else {
      assert Text.IsDigit(Text.NatToString(-i)[0]);
    }
  }

  lemma JoinStart(ts: seq<string>, sep: string)
    requires |ts| > 0 && |ts[0]| > 0
    ensures |Text.Join(ts, sep)| > 0 && Text.Join(ts, sep)[0] == ts[0][0]
  {
  }

  /**
   * The piece of the text between commas is one range's text, after a
   * space for every piece but the first: toString lists the ranges in order.
   */
  lemma {:induction false} ToStringPieces(rs: seq<Range>)
    requires |rs| > 0
    ensures Text.Split(ToString(rs), ',')
         == seq(|rs|, i requires 0 <= i < |rs| => (if i == 0 then "" else " ") + RangeText(rs[i]))
  {
    var ts := RangeTexts(rs);
    var pieces := seq(|rs|, i requires 0 <= i < |rs| => (if i == 0 then "" else " ") + RangeText(rs[i]));
    forall i | 0 <= i < |rs|
      ensures ',' !in pieces[i]
    {
      RangeTextNoComma(rs[i]);
    }
    JoinCommaSpace(ts, pieces);
    Text.SplitJoin(pieces, ',');
  }

  lemma RangeTextNoComma(r: Range)
    ensures ',' !in RangeText(r) && ',' !in " " + RangeText(r)
  {
    Text.IntToStringNoComma(r.from);
    Text.IntToStringNoComma(r.to);
  }

  lemma {:induction false} JoinCommaSpace(ts: seq<string>, pieces: seq<string>)
    requires |ts| == |pieces| > 0
    requires pieces[0] == "" + ts[0]
    requires forall i :: 0 < i < |ts| ==> pieces[i] == " " + ts[i]
    ensures Text.Join(ts, ", ") == Text.Join(pieces, [','])
    decreases |ts|
  {
    if |ts| > 1 {
      var ts' := [ts[0] + ", " + ts[1]] + ts[2..];
      var pieces' := [pieces[0] + [','] + pieces[1]] + pieces[2..];
      JoinCommaSpace(ts[1..], [ts[1]] + pieces[2..]);
      assert Text.Join(ts, ", ") == ts[0] + ", " + Text.Join(ts[1..], ", ");
      assert Text.Join(pieces, [',']) == pieces[0] + [','] + Text.Join(pieces[1..], [',']);
      assert pieces[1..] == [" " + ts[1]] + pieces[2..];
      JoinFirst([ts[1]] + pieces[2..], " ", [',']);
      assert ([ts[1]] + pieces[2..])[1..] == pieces[2..];
    }
  }

  /** Prefixing the first part prefixes the join. */
  lemma JoinFirst(parts: seq<string>, pre: string, sep: string)
    requires |parts| > 0
    ensures Text.Join([pre + parts[0]] + parts[1..], sep) == pre + Text.Join(parts, sep)
  {
    var q := [pre + parts[0]] + parts[1..];
    if |parts| == 1 {
      assert q == [pre + parts[0]];
    } else {
      assert q[1..] == parts[1..];
      var tail := Text.Join(parts[1..], sep);
      assert Text.Join(q, sep) == q[0] + sep + tail;
    }
  }

  class Ranges {
    var ranges: seq<Range>

    ghost predicate Valid()
      reads this
    {
      WellFormed(ranges)
    }

    constructor ()
      ensures Valid() && ranges == []
    {
      ranges := [];
    }

    /** get(num): whether num is on, or undefined beyond the last range. */
    method Get(num: int) returns (g: GetResult)
      requires Valid()
      ensures g == Undefined <==> forall j :: 0 <= j < |ranges| ==> ranges[j].to < num
      ensures Truthy(g) <==> Segmenter.Covered(ranges, num)
    {
      var i := 0;
      while i < |ranges|
        invariant 0 <= i <= |ranges|
        invariant forall j :: 0 <= j < i ==> ranges[j].to < num
      {
        var r := ranges[i];
        if num > r.to {
          i := i + 1;
          continue;
        }
        Locate(ranges, i, num);
        return Bool(num >= r.from && num <= r.to);
      }
      return Undefined;
    }

    /** insert(num): add num to the set, merging with adjacent ranges. */
    method Insert(num: int)
      requires Valid()
      modifies this
      ensures Valid() && Inserted(old(ranges), ranges, num)
      ensures Segmenter.Covered(old(ranges), num) ==> ranges == old(ranges)
    {
      var i := 0;
      while i < |ranges|
        invariant 0 <= i <= |ranges| && ranges == old(ranges)
        invariant forall j :: 0 <= j < i ==> ranges[j].to < num
      {
        var r := ranges[i];
        if num > r.to {
          i := i + 1;
          continue;
        }
        InsertAt(i, num);
        return;
      }
      InsertPastEnd(num);
    }

    /** The body of insert's scan once it reaches the first range that does not end before num. */
    method InsertAt(i: nat, num: int)
      requires Valid() && i < |ranges| && num <= ranges[i].to
      requires forall j :: 0 <= j < i ==> ranges[j].to < num
      modifies this
      ensures Valid() && Inserted(old(ranges), ranges, num)
      ensures Segmenter.Covered(old(ranges), num) ==> ranges == old(ranges)
    {
      var rs := ranges;
      var r := rs[i];
      Locate(rs, i, num);
      if num >= r.from {
        return;
      }
      if i > 0 {
        var p := rs[i - 1];
        if p.to + 1 == num {
          if r.from - 1 == num {
            InsertJoin(rs, i, num);
            ranges := rs[..i - 1] + [Segmenter.Range(p.from, r.to)] + rs[i + 1..];
            return;
          } else {
            InsertExtendPrev(rs, i, num);
            ranges := rs[i - 1 := Segmenter.Range(p.from, p.to + 1)];
            return;
          }
        }
      }
      if r.from - 1 == num {
        InsertExtendNext(rs, i, num);
        ranges := rs[i := Segmenter.Range(r.from - 1, r.to)];
        return;
      }
      InsertAlone(rs, i, num);
      ranges := rs[..i] + [Segmenter.Range(num, num)] + rs[i..];
    }

    /** The end of insert, when every range ends before num: extend the last range or append. */
    method InsertPastEnd(num: int)
      requires Valid() && forall j :: 0 <= j < |ranges| ==> ranges[j].to < num
      modifies this
      ensures Valid() && Inserted(old(ranges), ranges, num)
      ensures !Segmenter.Covered(old(ranges), num)
    {
      var rs := ranges;
      PastTheEnd(rs, num);
      if |rs| > 0 {
        var r := rs[|rs| - 1];
        if r.to + 1 == num {
          InsertExtendPrev(rs, |rs|, num);
          ranges := rs[|rs| - 1 := Segmenter.Range(r.from, r.to + 1)];
          return;
        }
      }
      InsertAlone(rs, |rs|, num);
      assert rs[..|rs|] + [Segmenter.Range(num, num)] + rs[|rs|..] == rs + [Segmenter.Range(num, num)];
      ranges := rs + [Segmenter.Range(num, num)];
    }

    /** remove(num): take num out of the set, shrinking or splitting its range. */
    method Remove(num: int)
      requires Valid()
      modifies this
      ensures Valid() && Removed(old(ranges), ranges, num)
      ensures !Segmenter.Covered(old(ranges), num) ==> ranges == old(ranges)
    {
      var rs := ranges;
      var i := 0;
      while i < |rs|
        invariant 0 <= i <= |rs| && ranges == rs
        invariant forall j :: 0 <= j < i ==> rs[j].to < num
      {
        var r := rs[i];
        if num > r.to {
          i := i + 1;
          continue;
        }
        Locate(rs, i, num);
        if num < r.from {
          return;
        }
        if num == r.from {
          if r.from == r.to {
            RemoveSingle(rs, i, num);
            ranges := rs[..i] + rs[i + 1..];
            return;
          }
          RemoveFirst(rs, i, num);
          ranges := rs[i := Segmenter.Range(r.from + 1, r.to)];
          return;
        } else if num == r.to {
          RemoveLast(rs, i, num);
          ranges := rs[i := Segmenter.Range(r.from, r.to - 1)];
          return;
        }
        RemoveSplit(rs, i, num);
        ranges := rs[..i] + [Segmenter.Range(r.from, num - 1), Segmenter.Range(num + 1, r.to)] + rs[i + 1..];
        return;
      }
      PastTheEnd(rs, num);
    }

    /** set(num, state): insert when state is truthy, remove otherwise. */
    method Set(num: int, state: bool)
      requires Valid()
      modifies this
      ensures Valid()
      ensures state ==> Inserted(old(ranges), ranges, num)
      ensures !state ==> Removed(old(ranges), ranges, num)
    {
      if state {
        Insert(num);
      } else {
        Remove(num);
      }
    }
  }

  /** The insert cases of the page's own self-test: 3, then 1, then 2 from an empty list. */
  method InsertExamples()
  {
    var r := new Ranges();
    r.Insert(3);
    ExampleThree(r.ranges);
    r.Insert(1);
    ExampleOneThree(r.ranges);
    r.Insert(2);
    ExampleOneToThree(r.ranges);
    assert r.ranges == [Segmenter.Range(1, 3)];
  }

  lemma ExampleThree(rs: seq<Range>)
    requires WellFormed(rs) && Inserted([], rs, 3)
    ensures rs == [Segmenter.Range(3, 3)]
  {
    var want := [Segmenter.Range(3, 3)];
    forall n ensures Segmenter.Covered(want, n) <==> n == 3 {
      CoveredOne(want[0], n);
    }
    Canonical(rs, want);
  }

  lemma ExampleOneThree(rs: seq<Range>)
    requires WellFormed(rs) && Inserted([Segmenter.Range(3, 3)], rs, 1)
    ensures rs == [Segmenter.Range(1, 1), Segmenter.Range(3, 3)]
  {
    var want := [Segmenter.Range(1, 1), Segmenter.Range(3, 3)];
    forall n ensures Segmenter.Covered(want, n) <==> n == 1 || n == 3 {
      CoveredOne(want[0], n);
      CoveredOne(want[1], n);
      CoveredOne(Segmenter.Range(3, 3), n);
      CoveredConcat([want[0]], [want[1]], n);
      assert want == [want[0]] + [want[1]];
    }
    Canonical(rs, want);
  }

  lemma ExampleOneToThree(rs: seq<Range>)
    requires WellFormed(rs) && Inserted([Segmenter.Range(1, 1), Segmenter.Range(3, 3)], rs, 2)
    ensures rs == [Segmenter.Range(1, 3)]
  {
    var old_ := [Segmenter.Range(1, 1), Segmenter.Range(3, 3)];
    var want := [Segmenter.Range(1, 3)];
    forall n ensures Segmenter.Covered(want, n) <==> 1 <= n <= 3 {
      CoveredOne(want[0], n);
    }
    forall n ensures Segmenter.Covered(old_, n) <==> n == 1 || n == 3 {
      CoveredOne(old_[0], n);
      CoveredOne(old_[1], n);
      CoveredConcat([old_[0]], [old_[1]], n);
      assert old_ == [old_[0]] + [old_[1]];
    }
    Canonical(rs, want);
  }

  /** Three remove cases of the page's own self-test, each from the list it sets up. */
  method RemoveExamples()
  {
    var r := new Ranges();
    r.ranges := [Segmenter.Range(3, 3)];
    r.Remove(3);
    ExampleRemoveOnly(r.ranges);
    r.ranges := [Segmenter.Range(3, 5)];
    r.Remove(4);
    ExampleRemoveInside(r.ranges);
    r.ranges := [Segmenter.Range(3, 3), Segmenter.Range(5, 5), Segmenter.Range(7, 7)];
    r.Remove(5);
    ExampleRemoveMiddle(r.ranges);
  }

  lemma ExampleRemoveOnly(rs: seq<Range>)
    requires WellFormed(rs) && Removed([Segmenter.Range(3, 3)], rs, 3)
    ensures rs == []
  {
    forall n ensures !Segmenter.Covered(rs, n) {
      CoveredOne(Segmenter.Range(3, 3), n);
    }
    Canonical(rs, []);
  }

  lemma ExampleRemoveInside(rs: seq<Range>)
    requires WellFormed(rs) && Removed([Segmenter.Range(3, 5)], rs, 4)
    ensures rs == [Segmenter.Range(3, 3), Segmenter.Range(5, 5)]
  {
    var want := [Segmenter.Range(3, 3), Segmenter.Range(5, 5)];
    forall n ensures Segmenter.Covered(want, n) <==> n == 3 || n == 5 {
      CoveredOne(want[0], n);
      CoveredOne(want[1], n);
      CoveredConcat([want[0]], [want[1]], n);
      assert want == [want[0]] + [want[1]];
    }
    forall n ensures Segmenter.Covered(rs, n) <==> n == 3 || n == 5 {
      CoveredOne(Segmenter.Range(3, 5), n);
    }
    Canonical(rs, want);
  }

  lemma ExampleRemoveMiddle(rs: seq<Range>)
    requires WellFormed(rs) && Removed([Segmenter.Range(3, 3), Segmenter.Range(5, 5), Segmenter.Range(7, 7)], rs, 5)
    ensures rs == [Segmenter.Range(3, 3), Segmenter.Range(7, 7)]
  {
    var old_ := [Segmenter.Range(3, 3), Segmenter.Range(5, 5), Segmenter.Range(7, 7)];
    var want := [Segmenter.Range(3, 3), Segmenter.Range(7, 7)];
    forall n ensures Segmenter.Covered(want, n) <==> n == 3 || n == 7 {
      CoveredOne(want[0], n);
      CoveredOne(want[1], n);
      CoveredConcat([want[0]], [want[1]], n);
      assert want == [want[0]] + [want[1]];
    }
    forall n ensures Segmenter.Covered(old_, n) <==> n == 3 || n == 5 || n == 7 {
      CoveredOne(old_[0], n);
      CoveredOne(old_[1], n);
      CoveredOne(old_[2], n);
      CoveredThree([old_[0]], [old_[1]], [old_[2]], n);
      assert old_ == [old_[0]] + [old_[1]] + [old_[2]];
    }
    Canonical(rs, want);
  }

  // ---------------------------------------------------------------------
  // Cursor navigation

  const ModeNav := 0
  const ModeOn := 1
  const ModeOff := 2
  const ModeMax := 2

  /** actionModeToString. */
  function ActionModeToString(mode: int): string
  {
    if mode == ModeNav then "NAV"
    else if mode == ModeOn then "ON"
    else if mode == ModeOff then "OFF"
    else "???"
  }

  /** actionClicked's next mode: NAV, ON, OFF, then back to NAV. */
  function NextMode(mode: int): (next: int)
    ensures 0 <= mode < ModeMax ==> next == mode + 1
    ensures mode >= ModeMax ==> next == 0
  {
    if mode + 1 > ModeMax then 0 else mode + 1
  }

  /** Three clicks bring every mode back. */
  lemma ModeCycle(mode: int)
    requires 0 <= mode <= ModeMax
    ensures NextMode(NextMode(NextMode(mode))) == mode
    ensures NextMode(mode) != mode
  {
  }

  /** Where upClicked(n) moves the cursor. */
  function Up(cur: int, n: int, maxLight: int): int
  {
    if cur == maxLight then cur else if cur + n > maxLight then maxLight else cur + n
  }

  /** Where downClicked(n) moves the cursor. */
  function Down(cur: int, n: int, minLight: int): int
  {
    if cur == minLight then cur else if cur - n < minLight then minLight else cur - n
  }

  /** A cursor inside [minLight, maxLight] stays inside, moving by at most n. */
  lemma MovesStayInside(cur: int, n: nat, minLight: int, maxLight: int)
    requires minLight <= cur <= maxLight
    ensures minLight <= Up(cur, n, maxLight) <= maxLight && cur <= Up(cur, n, maxLight) <= cur + n
    ensures minLight <= Down(cur, n, minLight) <= maxLight && cur - n <= Down(cur, n, minLight) <= cur
  {
  }

  /** Moving up then down by the same step from well inside returns to the start. */
  lemma UpDown(cur: int, n: nat, minLight: int, maxLight: int)
    requires minLight <= cur && cur + n <= maxLight && cur != maxLight
    ensures Down(Up(cur, n, maxLight), n, minLight) == cur
  {
  }

  /** The page's global state: the lit set, the cursor and the action mode. */
  class Editor {
    const state: Ranges
    const minLight: int
    const maxLight: int
    var curLight: int
    var actionMode: int

    ghost predicate Valid()
      reads this, state
    {
      state.Valid() && minLight <= curLight <= maxLight && 0 <= actionMode <= ModeMax
    }

    /** Page load: an empty set, the cursor at minLight, NAV mode. */
    constructor (minLight: int, maxLight: int)
      requires minLight <= maxLight
      ensures Valid() && fresh(state) && state.ranges == []
      ensures this.minLight == minLight && this.maxLight == maxLight
      ensures curLight == minLight && actionMode == ModeNav
    {
      state := new Ranges();
      this.minLight := minLight;
      this.maxLight := maxLight;
      curLight := minLight;
      actionMode := ModeNav;
    }

    /**
     * The pixel being left is recorded (on in ON mode, off in OFF mode)
     * unless the mode is NAV or the cursor cannot move.
     */
    ghost predicate Recorded(before: seq<Range>, moved: bool, light: int)
      reads this, state
    {
      if moved && actionMode != ModeNav then
        (actionMode == ModeOn ==> Inserted(before, state.ranges, light))
        && (actionMode != ModeOn ==> Removed(before, state.ranges, light))
      else state.ranges == before
    }

    method UpClicked(n: nat)
      requires Valid()
      modifies this, state
      ensures Valid() && actionMode == old(actionMode)
      ensures curLight == Up(old(curLight), n, maxLight)
      ensures Recorded(old(state.ranges), old(curLight) != maxLight, old(curLight))
    {
      if curLight == maxLight {
        return;
      }
      var next := curLight + n;
      if next > maxLight {
        next := maxLight;
      }
      if actionMode != ModeNav {
        state.Set(curLight, actionMode == ModeOn);
      }
      curLight := next;
    }

    method DownClicked(n: nat)
      requires Valid()
      modifies this, state
      ensures Valid() && actionMode == old(actionMode)
      ensures curLight == Down(old(curLight), n, minLight)
      ensures Recorded(old(state.ranges), old(curLight) != minLight, old(curLight))
    {
      if curLight == minLight {
        return;
      }
      var next := curLight - n;
      if next < minLight {
        next := minLight;
      }
      if actionMode != ModeNav {
        state.Set(curLight, actionMode == ModeOn);
      }
      curLight := next;
    }

    method ActionClicked()
      requires Valid()
      modifies this
      ensures Valid() && curLight == old(curLight) && actionMode == NextMode(old(actionMode))
    {
      var next := actionMode + 1;
      if next > ModeMax {
        next := 0;
      }
      actionMode := next;
    }

    /** keyDown: right arrow, left arrow and space; other keys do nothing. */
    method KeyDown(key: string)
      requires Valid()
      modifies this, state
      ensures Valid()
      ensures key == "ArrowRight" ==> curLight == Up(old(curLight), 1, maxLight)
      ensures key == "ArrowLeft" ==> curLight == Down(old(curLight), 1, minLight)
      ensures key == " " ==> actionMode == NextMode(old(actionMode)) && curLight == old(curLight)
      ensures key !in {"ArrowRight", "ArrowLeft", " "} ==>
        curLight == old(curLight) && actionMode == old(actionMode) && state.ranges == old(state.ranges)
    {
      if key == "ArrowRight" {
        UpClicked(1);
      } else if key == "ArrowLeft" {
        DownClicked(1);
      } else if key == " " {
        ActionClicked();
      }
    }
  }
}
