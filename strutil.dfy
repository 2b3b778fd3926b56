/*
 * IndexesToRanges: a list of indexes printed as comma-separated runs of
 * consecutive values, "a" for a run of one and "a-b" for a longer one.
 * The indexes are taken in the order given; nothing is sorted.
 */
module StrUtil {
  import opened Wrappers
  import opened Text

  /** An inclusive run of consecutive indexes. */
  datatype Run = Run(from: int, to: int)

  /** Every run goes upwards. */
  predicate Upward(rs: seq<Run>)
  {
    forall i :: 0 <= i < |rs| ==> rs[i].from <= rs[i].to
  }

  /** No run ends just before the next one starts. */
  predicate Maximal(rs: seq<Run>)
  {
    forall i :: 0 < i < |rs| ==> rs[i - 1].to + 1 != rs[i].from
  }

  /** The indexes a run stands for, from `from` up to `to`. */
  function Span(r: Run): seq<int>
    requires r.from <= r.to
  {
    seq(r.to - r.from + 1, k => r.from + k)
  }

  /** The runs one after another, each expanded. */
  function Expand(rs: seq<Run>): seq<int>
    requires Upward(rs)
  {
    if |rs| == 0 then [] else Expand(rs[..|rs| - 1]) + Span(rs[|rs| - 1])
  }

  /** One more value either extends the last run or starts a new one. */
  function Extend(rs: seq<Run>, x: int): seq<Run>
  {
    if |rs| > 0 && rs[|rs| - 1].to + 1 == x then rs[..|rs| - 1] + [Run(rs[|rs| - 1].from, x)]
    else rs + [Run(x, x)]
  }

  /**
   * The runs of `xs`: a value one past the end of the last run extends it,
   * any other value starts a new run. Runs are never empty and a run never
   * ends just before the next one starts, so they cannot be merged further.
   */
  function Runs(xs: seq<int>): (rs: seq<Run>)
  {
    if |xs| == 0 then [] else Extend(Runs(xs[..|xs| - 1]), xs[|xs| - 1])
  }

  /** There are no more runs than values, none for no values, and the last run ends at the last value. */
  lemma {:induction false} RunsShape(xs: seq<int>)
    ensures var rs := Runs(xs);
            && |rs| <= |xs| && (|rs| == 0 <==> |xs| == 0)
            && Upward(rs) && Maximal(rs)
            && (|xs| > 0 ==> rs[|rs| - 1].to == xs[|xs| - 1])
  {
    if |xs| > 0 {
      RunsShape(xs[..|xs| - 1]);
      ExtendKeeps(Runs(xs[..|xs| - 1]), xs[|xs| - 1]);
    }
  }

  /** Extending keeps the runs upward and maximal, and the last run ends at the new value. */
  lemma ExtendKeeps(rs: seq<Run>, x: int)
    requires Upward(rs) && Maximal(rs)
    ensures var e := Extend(rs, x);
            |rs| <= |e| <= |rs| + 1 && Upward(e) && Maximal(e) && e[|e| - 1].to == x
  {
    var e := Extend(rs, x);
    if |rs| > 0 && rs[|rs| - 1].to + 1 == x {
      assert forall i :: 0 <= i < |rs| - 1 ==> e[i] == rs[i];
    } else {
      assert forall i :: 0 <= i < |rs| ==> e[i] == rs[i];
    }
  }

  lemma RunsSnoc(xs: seq<int>, x: int)
    ensures Runs(xs + [x]) == Extend(Runs(xs), x)
  {
    assert (xs + [x])[..|xs|] == xs;
  }

  lemma ExtendLast(rs: seq<Run>, c: Run, x: int)
    ensures Extend(rs + [c], x) == if c.to + 1 == x then rs + [Run(c.from, x)] else rs + [c] + [Run(x, x)]
  {
    assert (rs + [c])[..|rs|] == rs;
  }

  lemma ExpandSnoc(rs: seq<Run>, r: Run)
    requires Upward(rs) && r.from <= r.to
    ensures Upward(rs + [r])
    ensures Expand(rs + [r]) == Expand(rs) + Span(r)
  {
    assert (rs + [r])[..|rs|] == rs;
  }

  lemma SpanSnoc(from: int, to: int)
    requires from <= to
    ensures Span(Run(from, to + 1)) == Span(Run(from, to)) + [to + 1]
  {
  }

  /** Expanding the runs gives back exactly the indexes, in their order. */
  lemma {:induction false} ExpandRuns(xs: seq<int>)
    ensures Upward(Runs(xs)) && Expand(Runs(xs)) == xs
  {
    if |xs| > 0 {
      var init := xs[..|xs| - 1];
      var x := xs[|xs| - 1];
      var rs := Runs(init);
      assert Upward(rs) && Expand(rs) == init by {
        ExpandRuns(init);
      }
      var e := Extend(rs, x);
      assert Upward(e) && Expand(e) == init + [x] by {
        ExpandExtend(rs, x);
      }
      assert Runs(xs) == e;
      assert init + [x] == xs;
    }
  }

  /** Extending the runs by a value extends their expansion by that value. */
  lemma ExpandExtend(rs: seq<Run>, x: int)
    requires Upward(rs)
    ensures Upward(Extend(rs, x)) && Expand(Extend(rs, x)) == Expand(rs) + [x]
  {
    if |rs| > 0 && rs[|rs| - 1].to + 1 == x {
      var last := rs[|rs| - 1];
      var front := rs[..|rs| - 1];
      assert Upward(front);
      assert rs == front + [last];
      ExpandSnoc(front, last);
      ExpandSnoc(front, Run(last.from, x));
      SpanSnoc(last.from, last.to);
      var e := Expand(front);
      assert Expand(Extend(rs, x)) == e + (Span(last) + [x]);
      assert Expand(rs) == e + Span(last);
    } else {
      ExpandSnoc(rs, Run(x, x));
      assert Span(Run(x, x)) == [x];
    }
  }

  /** absl::StrCat(from) for a run of one, absl::StrCat(from, "-", to) otherwise. */
  function RunText(r: Run): string
  {
    if r.from == r.to then IntToString(r.from) else IntToString(r.from) + "-" + IntToString(r.to)
  }

  function RunTexts(rs: seq<Run>): (ts: seq<string>)
    ensures |ts| == |rs|
  {
    seq(|rs|, i requires 0 <= i < |rs| => RunText(rs[i]))
  }

  lemma RunTextsSnoc(rs: seq<Run>, r: Run)
    ensures RunTexts(rs + [r]) == RunTexts(rs) + [RunText(r)]
  {
  }

  /** What IndexesToRanges returns. */
  function RangesText(xs: seq<int>): string
  {
    Join(RunTexts(Runs(xs)), ",")
  }

  /**
   * IndexesToRanges: the runs, then their texts, joined with ",".
   */
  method IndexesToRanges(indexes: seq<int>) returns (s: string)
    ensures s == RangesText(indexes)
  {
    var ranges := CollectRuns(indexes);
    var out := PrintRuns(ranges);
    s := Join(out, ",");
  }

  /**
   * The first loop of IndexesToRanges: the run being built is kept in `cur`
   * (the source's `continue`s become the branches of one if).
   */
  method CollectRuns(indexes: seq<int>) returns (ranges: seq<Run>)
    ensures ranges == Runs(indexes)
  {
    ranges := [];
    var cur: Option<Run> := None;
    for i := 0 to |indexes|
      invariant cur.None? ==> ranges == []
      invariant Close(ranges, cur) == Runs(indexes[..i])
    {
      var idx := indexes[i];
      RunsPrefix(indexes, i);
      if cur.None? {
        cur := Some(Run(idx, idx));
      } else if cur.value.to + 1 == idx {
        ExtendLast(ranges, cur.value, idx);
        cur := Some(Run(cur.value.from, idx));
      } else {
        ExtendLast(ranges, cur.value, idx);
        ranges := ranges + [cur.value];
        cur := Some(Run(idx, idx));
      }
    }
    if cur.Some? {
      ranges := ranges + [cur.value];
    }
    assert indexes[..|indexes|] == indexes;
  }

  lemma RunsPrefix(xs: seq<int>, i: int)
    requires 0 <= i < |xs|
    ensures Runs(xs[..i + 1]) == Extend(Runs(xs[..i]), xs[i])
  {
    assert xs[..i + 1] == xs[..i] + [xs[i]];
    RunsSnoc(xs[..i], xs[i]);
  }

  /** The runs closed so far followed by the one being built, if any. */
  function Close(ranges: seq<Run>, cur: Option<Run>): seq<Run>
  {
    if cur.Some? then ranges + [cur.value] else ranges
  }

  /** The second loop of IndexesToRanges: one text per run, in order. */
  method PrintRuns(ranges: seq<Run>) returns (out: seq<string>)
    ensures out == RunTexts(ranges)
  {
    out := [];
    for j := 0 to |ranges|
      invariant out == RunTexts(ranges[..j])
    {
      var r := ranges[j];
      assert ranges[..j + 1] == ranges[..j] + [r];
      RunTextsSnoc(ranges[..j], r);
      if r.from == r.to {
        out := out + [IntToString(r.from)];
      } else {
        out := out + [IntToString(r.from) + "-" + IntToString(r.to)];
      }
    }
    assert ranges[..|ranges|] == ranges;
  }

  /** No indexes, no text. */
  lemma EmptyIndexes()
    ensures RangesText([]) == ""
  {
  }

  /** The text splits at its commas into exactly the runs' texts, one per run. */
  lemma SplitRangesText(xs: seq<int>)
    requires |xs| > 0
    ensures Split(RangesText(xs), ',') == RunTexts(Runs(xs))
  {
    var ts := RunTexts(Runs(xs));
    forall i | 0 <= i < |ts|
      ensures ',' !in ts[i]
    {
      var r := Runs(xs)[i];
      IntToStringNoComma(r.from);
      IntToStringNoComma(r.to);
    }
    SplitJoin(ts, ',');
  }

  /** [1, 3, 4, 5, 9] has the runs 1, 3-5 and 9. */
  lemma ExampleRuns()
    ensures Runs([1, 3, 4, 5, 9]) == [Run(1, 1), Run(3, 5), Run(9, 9)]
  {
    RunsSnoc([], 1);
    assert [] + [1] == [1];
    RunsSnoc([1], 3);
    assert [1] + [3] == [1, 3];
    RunsSnoc([1, 3], 4);
    assert [1, 3] + [4] == [1, 3, 4];
    RunsSnoc([1, 3, 4], 5);
    assert [1, 3, 4] + [5] == [1, 3, 4, 5];
    RunsSnoc([1, 3, 4, 5], 9);
    assert [1, 3, 4, 5] + [9] == [1, 3, 4, 5, 9];
  }

  /** [1, 3, 4, 5, 9] prints as "1,3-5,9". */
  lemma ExampleText()
    ensures RangesText([1, 3, 4, 5, 9]) == "1,3-5,9"
  {
    ExampleRuns();
    var rs := [Run(1, 1), Run(3, 5), Run(9, 9)];
    assert RunText(rs[0]) == "1" && RunText(rs[1]) == "3-5" && RunText(rs[2]) == "9";
    assert RunTexts(rs) == ["1", "3-5", "9"];
  }

  /** [1, 2, 3] is one run, "1-3". */
  lemma ExampleOneRun()
    ensures RangesText([1, 2, 3]) == "1-3"
  {
    RunsSnoc([], 1);
    assert [] + [1] == [1];
    RunsSnoc([1], 2);
    assert [1] + [2] == [1, 2];
    RunsSnoc([1, 2], 3);
    assert [1, 2] + [3] == [1, 2, 3];
    assert IntToString(1) == "1" && IntToString(3) == "3";
    assert RunText(Run(1, 3)) == "1-3";
    RangesTextOf([1, 2, 3], [Run(1, 3)], ["1-3"]);
  }

  lemma RangesTextOf(xs: seq<int>, rs: seq<Run>, ts: seq<string>)
    requires Runs(xs) == rs && RunTexts(rs) == ts
    ensures RangesText(xs) == Join(ts, ",")
  {
  }

  /** Order is kept: [3, 2, 1] is three runs, "3,2,1". */
  lemma ExampleDescending()
    ensures RangesText([3, 2, 1]) == "3,2,1"
  {
    RunsSnoc([], 3);
    assert [] + [3] == [3];
    RunsSnoc([3], 2);
    assert [3] + [2] == [3, 2];
    RunsSnoc([3, 2], 1);
    assert [3, 2] + [1] == [3, 2, 1];
    var rs := [Run(3, 3), Run(2, 2), Run(1, 1)];
    assert Runs([3, 2, 1]) == rs;
    assert RunTexts(rs) == ["3", "2", "1"];
  }
}
