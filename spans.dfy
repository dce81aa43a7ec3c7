/**
 * Closed line ranges [s, e] and the merge that both the detection scorer
 * and the trace index rebuilder apply to them: sort the ranges as
 * (start, end) tuples, then walk them in order, starting a new range when
 * the next one begins more than one line after the current range's end,
 * and otherwise stretching the current range's end.
 */
module Spans {

  /** The line range [s, e]; it holds no line when s > e. */
  datatype Span = Span(s: int, e: int)

  function Max(a: int, b: int): int {
    if a >= b then a else b
  }

  /** Python's order on the tuple (s, e). */
  predicate Le(a: Span, b: Span) {
    a.s < b.s || (a.s == b.s && a.e <= b.e)
  }

  predicate Sorted(xs: seq<Span>) {
    forall i, j :: 0 <= i < j < |xs| ==> Le(xs[i], xs[j])
  }

  /** Every range holds at least one line. */
  predicate WellFormed(xs: seq<Span>) {
    forall y :: y in xs ==> y.s <= y.e
  }

  /** Line `x` lies in one of the ranges. */
  predicate Covers(xs: seq<Span>, x: int) {
    exists y :: y in xs && y.s <= x <= y.e
  }

  /** Each range starts more than one line after the previous range ends. */
  predicate Separated(xs: seq<Span>) {
    forall k :: 0 < k < |xs| ==> xs[k].s > xs[k - 1].e + 1
  }

  // ---------- sorting (Python's `sorted` on tuples) ----------

  function Insert(x: Span, xs: seq<Span>): (r: seq<Span>)
    requires Sorted(xs)
    ensures forall y :: y in r ==> y in xs || y == x
    ensures Sorted(r) && multiset(r) == multiset(xs) + multiset{x}
  {
    if xs == [] || Le(x, xs[0]) then [x] + xs
    else
      var r' := Insert(x, xs[1..]);
      assert xs == [xs[0]] + xs[1..];
      InsertAbove(xs[0], xs[1..], x, r');
      [xs[0]] + r'
  }

  lemma InsertAbove(first: Span, rest: seq<Span>, x: Span, r': seq<Span>)
    requires Sorted([first] + rest) && Le(first, x)
    requires forall y :: y in r' ==> y in rest || y == x
    requires Sorted(r')
    ensures Sorted([first] + r')
  {
    var s := [first] + rest;
    forall y | y in r'
      ensures Le(first, y)
    {
      if y in rest {
        var a :| 0 <= a < |rest| && rest[a] == y;
        assert s[a + 1] == y && s[0] == first;
      }
    }
    forall a, b | 0 <= a < b < |r'| + 1
      ensures Le(([first] + r')[a], ([first] + r')[b])
    {
      if a == 0 {
        assert r'[b - 1] in r';
      } else {
        assert ([first] + r')[a] == r'[a - 1] && ([first] + r')[b] == r'[b - 1];
      }
    }
  }

  /** `sorted(xs)`: the ranges in tuple order. */
  function Sort(xs: seq<Span>): (r: seq<Span>)
    ensures Sorted(r) && multiset(r) == multiset(xs)
    ensures |r| == |xs|
  {
    if xs == [] then []
    else
      assert xs == [xs[0]] + xs[1..];
      Insert(xs[0], Sort(xs[1..]))
  }

  /** Sorting a list that is already in order leaves it unchanged. */
  lemma {:induction false} SortSorted(xs: seq<Span>)
    requires Sorted(xs)
    ensures Sort(xs) == xs
  {
    if xs != [] {
      assert Sorted(xs[1..]);
      SortSorted(xs[1..]);
      assert |xs| > 1 ==> Le(xs[0], xs[1..][0]);
      assert [xs[0]] + xs[1..] == xs;
    }
  }

  // ---------- merging ----------

  /** One step of the merge loop: append `x`, or stretch the last range. */
  function Step(out: seq<Span>, x: Span): (r: seq<Span>)
    ensures r != [] && r[|r| - 1].s == (if out == [] || x.s > out[|out| - 1].e + 1 then x.s else out[|out| - 1].s)
  {
    if out == [] || x.s > out[|out| - 1].e + 1 then out + [x]
    else out[|out| - 1 := Span(out[|out| - 1].s, Max(out[|out| - 1].e, x.e))]
  }

  /** The merge loop run over `xs` in the order given. */
  function Merged(xs: seq<Span>): (r: seq<Span>)
    ensures |r| <= |xs| && (r == [] <==> xs == [])
  {
    if xs == [] then [] else Step(Merged(xs[..|xs| - 1]), xs[|xs| - 1])
  }

  /** `_merge_spans(spans)` / `merge_spans(spans)` of the two tools. */
  function Merge(spans: seq<Span>): seq<Span> {
    if spans == [] then [] else Merged(Sort(spans))
  }

  function Last(xs: seq<Span>): Span
    requires xs != []
  {
    xs[|xs| - 1]
  }

  /** The last merged range sorts no later than any range that sorts after every input. */
  lemma {:induction false} MergedBelow(xs: seq<Span>, y: Span)
    requires Sorted(xs) && xs != []
    requires forall k :: 0 <= k < |xs| ==> Le(xs[k], y)
    ensures Le(Last(Merged(xs)), y)
  {
    var init, x := xs[..|xs| - 1], xs[|xs| - 1];
    var p := Merged(init);
    if p != [] && x.s <= p[|p| - 1].e + 1 {
      assert Sorted(init);
      MergedBelow(init, y);
      MergedBelow(init, x);
    }
  }

  lemma {:induction false} MergedOrdered(xs: seq<Span>)
    requires Sorted(xs)
    ensures Sorted(Merged(xs)) && Separated(Merged(xs))
  {
    if xs != [] {
      var init, x := xs[..|xs| - 1], xs[|xs| - 1];
      assert Sorted(init);
      MergedOrdered(init);
      var p := Merged(init);
      if p != [] {
        assert forall k :: 0 <= k < |init| ==> Le(init[k], x) by {
          forall k | 0 <= k < |init| ensures Le(init[k], x) {
            assert init[k] == xs[k];
          }
        }
        MergedBelow(init, x);
        StepOrdered(p, x);
      }
    }
  }

  lemma StepOrdered(p: seq<Span>, x: Span)
    requires p != [] && Sorted(p) && Separated(p) && Le(Last(p), x)
    ensures Sorted(Step(p, x)) && Separated(Step(p, x))
  {
    var r := Step(p, x);
    var n := |p| - 1;
    forall i, j | 0 <= i < j < |r|
      ensures Le(r[i], r[j])
    {
      assert Le(p[i], p[n]);
      if j < n {
        assert r[i] == p[i] && r[j] == p[j];
      }
    }
  }

  /** For well-formed sorted input, the merge covers exactly the input's lines. */
  lemma {:induction false} MergedCovers(xs: seq<Span>)
    requires Sorted(xs) && WellFormed(xs)
    ensures WellFormed(Merged(xs))
    ensures forall z :: Covers(Merged(xs), z) <==> Covers(xs, z)
  {
    if xs != [] {
      var init, x := xs[..|xs| - 1], xs[|xs| - 1];
      assert xs == init + [x];
      assert Sorted(init) && WellFormed(init);
      MergedCovers(init);
      var p := Merged(init);
      if p != [] {
        assert forall k :: 0 <= k < |init| ==> Le(init[k], x) by {
          forall k | 0 <= k < |init| ensures Le(init[k], x) {
            assert init[k] == xs[k];
          }
        }
        MergedBelow(init, x);
      }
      StepCovers(p, init, x);
    }
  }

  lemma StepCovers(p: seq<Span>, init: seq<Span>, x: Span)
    requires WellFormed(p) && x.s <= x.e
    requires p != [] ==> Last(p).s <= x.s
    requires forall z :: Covers(p, z) <==> Covers(init, z)
    ensures WellFormed(Step(p, x))
    ensures forall z :: Covers(Step(p, x), z) <==> Covers(init + [x], z)
  {
    var r := Step(p, x);
    forall z
      ensures Covers(r, z) <==> Covers(init + [x], z)
    {
      CoversSnoc(init, x, z);
      if p == [] || x.s > p[|p| - 1].e + 1 {
        CoversSnoc(p, x, z);
      } else {
        var n := |p| - 1;
        var l := p[n];
        assert p == p[..n] + [l];
        assert r == p[..n] + [Span(l.s, Max(l.e, x.e))];
        CoversSnoc(p[..n], l, z);
        CoversSnoc(p[..n], Span(l.s, Max(l.e, x.e)), z);
      }
    }
    forall y | y in r
      ensures y.s <= y.e
    {
      if p != [] && x.s <= p[|p| - 1].e + 1 {
        var n := |p| - 1;
        assert p[n] in p;
        if y != r[n] {
          var a :| 0 <= a < |r| && r[a] == y;
          assert p[a] in p;
        }
      }
    }
  }

  lemma CoversSnoc(xs: seq<Span>, x: Span, z: int)
    ensures Covers(xs + [x], z) <==> Covers(xs, z) || x.s <= z <= x.e
  {
    if Covers(xs + [x], z) {
      var y :| y in xs + [x] && y.s <= z <= y.e;
      if y != x {
        assert y in xs;
      }
    }
    if Covers(xs, z) {
      var y :| y in xs && y.s <= z <= y.e;
      assert y in xs + [x];
    }
    if x.s <= z <= x.e {
      assert x in xs + [x];
    }
  }

  /** A separated list is left unchanged by the merge loop. */
  lemma {:induction false} MergedSeparated(xs: seq<Span>)
    requires Separated(xs)
    ensures Merged(xs) == xs
  {
    if xs != [] {
      var init := xs[..|xs| - 1];
      assert Separated(init);
      MergedSeparated(init);
      assert init + [xs[|xs| - 1]] == xs;
    }
  }

  /** The merge is sorted and leaves a gap of at least one line between ranges. */
  lemma MergeOrdered(spans: seq<Span>)
    ensures Sorted(Merge(spans)) && Separated(Merge(spans))
  {
    if spans != [] {
      MergedOrdered(Sort(spans));
    }
  }

  /**
   * For ranges that each hold a line, the merge holds exactly the same lines,
   * and its ranges each hold a line.
   */
  lemma MergeCovers(spans: seq<Span>)
    requires WellFormed(spans)
    ensures WellFormed(Merge(spans))
    ensures forall z :: Covers(Merge(spans), z) <==> Covers(spans, z)
  {
    if spans != [] {
      var ys := Sort(spans);
      assert forall y :: y in ys <==> y in spans by {
        forall y ensures y in ys <==> y in spans {
          assert y in multiset(ys) <==> y in multiset(spans);
        }
      }
      MergedCovers(ys);
    }
  }

  /** Merging an already merged list returns it unchanged. */
  lemma MergeIdempotent(spans: seq<Span>)
    ensures Merge(Merge(spans)) == Merge(spans)
  {
    if spans != [] {
      var m := Merge(spans);
      MergeOrdered(spans);
      SortSorted(m);
      MergedSeparated(m);
    }
  }

  /** The loop over the sorted ranges. */
  method MergeLoop(ys: seq<Span>) returns (out: seq<Span>)
    ensures out == Merged(ys)
  {
    out := [];
    var i := 0;
    while i < |ys|
      invariant 0 <= i <= |ys|
      invariant out == Merged(ys[..i])
    {
      var s, e := ys[i].s, ys[i].e;
      if out == [] || s > out[|out| - 1].e + 1 {
        out := out + [Span(s, e)];
      } else {
        out := out[|out| - 1 := Span(out[|out| - 1].s, Max(out[|out| - 1].e, e))];
      }
      assert ys[..i + 1][..i] == ys[..i];
      i := i + 1;
    }
    assert ys[..|ys|] == ys;
  }

  /**
   * The merge loop as the tools run it: sort, then append a range or stretch
   * the last one in place.
   */
  method MergeSpans(spans: seq<Span>) returns (out: seq<Span>)
    ensures out == Merge(spans)
    ensures Sorted(out) && Separated(out)
    ensures WellFormed(spans) ==> WellFormed(out) && forall z :: Covers(out, z) <==> Covers(spans, z)
  {
    MergeOrdered(spans);
    if WellFormed(spans) {
      MergeCovers(spans);
    }
    if spans == [] {
      return [];
    }
    out := MergeLoop(Sort(spans));
  }
}
