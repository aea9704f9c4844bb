/**
 * The masonry layout engine: greedy shortest-column-first placement of the
 * ordered visible items into N columns. `colHeights` accumulates, per
 * column, the estimated aspect ratios of the items placed in it.
 *
 * The loop of renderGallery is modelled by the methods MinColumn,
 * PlaceItem and PlaceAll over an array of heights; the function Greedy is
 * the specification they are proved against, and the lemmas below state
 * what the greedy rule guarantees.
 */
module Masonry {

  /** What the layout reads of an item's image element. */
  datatype ImageElement = ImageElement(complete: bool, naturalWidth: nat, naturalHeight: nat)

  /** The image has finished loading and has a real size. */
  predicate Decoded(img: ImageElement) {
    img.complete && img.naturalHeight > 0
  }

  /** A decoded image has a positive width too (the browser's guarantee). */
  predicate WellSized(img: ImageElement) {
    Decoded(img) ==> img.naturalWidth > 0
  }

  /** Height over width when decoded, else 1 (a square placeholder). */
  function EstimatedAspectRatio(img: ImageElement): (ratio: real)
    requires WellSized(img)
    ensures ratio > 0.0
    ensures !Decoded(img) ==> ratio == 1.0
    ensures Decoded(img) ==> ratio * img.naturalWidth as real == img.naturalHeight as real
  {
    if img.complete && img.naturalHeight > 0 then img.naturalHeight as real / img.naturalWidth as real
    else 1.0
  }

  function Ratios(images: seq<ImageElement>): (ratios: seq<real>)
    requires forall i :: 0 <= i < |images| ==> WellSized(images[i])
    ensures |ratios| == |images|
    ensures forall i :: 0 <= i < |images| ==> ratios[i] == EstimatedAspectRatio(images[i])
  {
    seq(|images|, i requires 0 <= i < |images| && WellSized(images[i]) => EstimatedAspectRatio(images[i]))
  }

  // ---------------------------------------------------------------------------
  // Specification

  /** The lowest index holding the minimum height. */
  function ArgMin(h: seq<real>): (m: nat)
    requires |h| >= 1
    ensures m < |h|
    ensures forall j :: 0 <= j < |h| ==> h[m] <= h[j]
    ensures forall j :: 0 <= j < m ==> h[j] > h[m]
  {
    if |h| == 1 then 0
    else
      var m := ArgMin(h[..|h| - 1]);
      if h[|h| - 1] < h[m] then |h| - 1 else m
  }

  /** Column heights and, for each item placed so far, the column it went to. */
  datatype Layout = Layout(heights: seq<real>, columnOf: seq<nat>)

  /** Place one item of ratio `x`: into the first lowest column, which grows by `x`. */
  function Place(l: Layout, x: real): (next: Layout)
    requires |l.heights| >= 1
    ensures |next.heights| == |l.heights| && |next.columnOf| == |l.columnOf| + 1
    ensures next.columnOf[..|l.columnOf|] == l.columnOf
  {
    var m := ArgMin(l.heights);
    Layout(l.heights[m := l.heights[m] + x], l.columnOf + [m])
  }

  /**
   * One placement puts the new item in a column of least height, ties going
   * to the lowest index, and grows that column alone by the item's ratio.
   */
  lemma PlaceLowest(l: Layout, x: real)
    requires |l.heights| >= 1
    ensures var next := Place(l, x);
            var m := next.columnOf[|l.columnOf|];
            && m < |l.heights|
            && (forall c :: 0 <= c < |l.heights| ==> l.heights[m] <= l.heights[c])
            && (forall c :: 0 <= c < m ==> l.heights[c] > l.heights[m])
            && next.heights == l.heights[m := l.heights[m] + x]
  {
    assert Place(l, x).columnOf[|l.columnOf|] == ArgMin(l.heights);
  }

  /** The greedy layout of items with the given ratios into `numCols` columns. */
  function Greedy(numCols: nat, ratios: seq<real>): (l: Layout)
    requires numCols >= 1
    ensures |l.heights| == numCols && |l.columnOf| == |ratios|
    ensures forall k :: 0 <= k < |ratios| ==> l.columnOf[k] < numCols
  {
    if ratios == [] then Layout(seq(numCols, _ => 0.0), [])
    else Place(Greedy(numCols, ratios[..|ratios| - 1]), ratios[|ratios| - 1])
  }

  /** The items of column `c`, in the order they were appended to it. */
  function ColumnItems(columnOf: seq<nat>, c: int): (items: seq<nat>)
    ensures forall j :: 0 <= j < |items| ==> items[j] < |columnOf|
  {
    if columnOf == [] then []
    else ColumnItems(columnOf[..|columnOf| - 1], c) + (if columnOf[|columnOf| - 1] == c then [|columnOf| - 1] else [])
  }

  /** All columns: column `c` holds ColumnItems(columnOf, c). */
  function Columns(numCols: nat, columnOf: seq<nat>): (columns: seq<seq<nat>>)
    ensures |columns| == numCols
  {
    seq(numCols, c => ColumnItems(columnOf, c))
  }

  function Sum(s: seq<real>): real {
    if s == [] then 0.0 else Sum(s[..|s| - 1]) + s[|s| - 1]
  }

  /** The largest ratio placed (0 before any). */
  function MaxRatio(s: seq<real>): (r: real)
    ensures forall i :: 0 <= i < |s| ==> s[i] <= r
    ensures s == [] ==> r == 0.0
    ensures s != [] && (forall i :: 0 <= i < |s| ==> s[i] >= 0.0) ==> r in s
  {
    if s == [] then 0.0
    else
      var m := MaxRatio(s[..|s| - 1]);
      assert forall i :: 0 <= i < |s| - 1 ==> s[..|s| - 1][i] == s[i];
      if s[|s| - 1] > m then s[|s| - 1] else m
  }

  /** No height is negative and no two heights differ by more than `bound`. */
  predicate Balanced(h: seq<real>, bound: real) {
    forall i, j :: 0 <= i < |h| && 0 <= j < |h| ==> 0.0 <= h[i] && h[i] - h[j] <= bound
  }

  predicate AllPositive(s: seq<real>) {
    forall i :: 0 <= i < |s| ==> s[i] > 0.0
  }

  /** One more item: the greedy layout of a prefix grows by one placement. */
  lemma GreedyStep(numCols: nat, ratios: seq<real>, i: nat)
    requires numCols >= 1 && i < |ratios|
    ensures Greedy(numCols, ratios[..i + 1]) == Place(Greedy(numCols, ratios[..i]), ratios[i])
  {
    var r := ratios[..i + 1];
    assert r[..|r| - 1] == ratios[..i] && r[|r| - 1] == ratios[i];
  }

  /** One iteration of the placement loop keeps the state equal to the greedy layout. */
  lemma GreedyAdvance(numCols: nat, ratios: seq<real>, i: nat, before: seq<real>, columnOf: seq<nat>, m: nat, after: seq<real>)
    requires numCols >= 1 && i < |ratios|
    requires before == Greedy(numCols, ratios[..i]).heights && columnOf == Greedy(numCols, ratios[..i]).columnOf
    requires m == ArgMin(before) && after == before[m := before[m] + ratios[i]]
    ensures m < numCols
    ensures after == Greedy(numCols, ratios[..i + 1]).heights
    ensures columnOf + [m] == Greedy(numCols, ratios[..i + 1]).columnOf
  {
    GreedyStep(numCols, ratios, i);
  }

  lemma ColumnsAppend(numCols: nat, columnOf: seq<nat>, m: nat)
    requires m < numCols
    ensures Columns(numCols, columnOf + [m]) ==
              Columns(numCols, columnOf)[m := Columns(numCols, columnOf)[m] + [|columnOf|]]
  {
    var a := columnOf + [m];
    assert a[..|a| - 1] == columnOf;
    var before, after := Columns(numCols, columnOf), Columns(numCols, a);
    forall c | 0 <= c < numCols
      ensures after[c] == before[m := before[m] + [|columnOf|]][c]
    {
      assert after[c] == ColumnItems(columnOf, c) + (if m == c then [|columnOf|] else []);
    }
  }

  // ---------------------------------------------------------------------------
  // The placement loop

  /** The inner loop: the first column of least height. */
  method MinColumn(colHeights: array<real>) returns (minColIndex: nat)
    requires colHeights.Length >= 1
    ensures minColIndex < colHeights.Length
    ensures forall j :: 0 <= j < colHeights.Length ==> colHeights[minColIndex] <= colHeights[j]
    ensures forall j :: 0 <= j < minColIndex ==> colHeights[j] > colHeights[minColIndex]
    ensures minColIndex == ArgMin(colHeights[..])
  {
    minColIndex := 0;
    var minHeight := colHeights[0];
    assert colHeights[..1][..0] == [];
    for i := 1 to colHeights.Length
      invariant minColIndex < i
      invariant minHeight == colHeights[minColIndex]
      invariant minColIndex == ArgMin(colHeights[..i])
    {
      assert colHeights[..i + 1][..i] == colHeights[..i];
      if colHeights[i] < minHeight {
        minHeight := colHeights[i];
        minColIndex := i;
      }
    }
    assert colHeights[..colHeights.Length] == colHeights[..];
  }

  /** One step of the forEach: place an item in the lowest column and grow that column. */
  method PlaceItem(colHeights: array<real>, ratio: real) returns (minColIndex: nat)
    requires colHeights.Length >= 1
    modifies colHeights
    ensures minColIndex == ArgMin(old(colHeights[..]))
    ensures colHeights[..] == old(colHeights[..])[minColIndex := old(colHeights[minColIndex]) + ratio]
  {
    minColIndex := MinColumn(colHeights);
    colHeights[minColIndex] := colHeights[minColIndex] + ratio;
  }

  /**
   * The placement loop of renderGallery: fresh zeroed heights, then every
   * item in order. `columns[c]` lists the positions of the items appended
   * to column `c`.
   */
  method PlaceAll(numCols: nat, images: seq<ImageElement>) returns (colHeights: array<real>, columns: seq<seq<nat>>)
    requires numCols >= 1
    requires forall i :: 0 <= i < |images| ==> WellSized(images[i])
    ensures fresh(colHeights)
    ensures colHeights[..] == Greedy(numCols, Ratios(images)).heights
    ensures columns == FinalColumns(numCols, images)
  {
    var ratios := Ratios(images);
    colHeights := new real[numCols](_ => 0.0);
    columns := seq(numCols, _ => []);
    ghost var columnOf: seq<nat> := [];
    assert ratios[..0] == [];
    assert colHeights[..] == Greedy(numCols, []).heights;
    assert columns == Columns(numCols, []);
    for i := 0 to |images|
      invariant colHeights[..] == Greedy(numCols, ratios[..i]).heights
      invariant columnOf == Greedy(numCols, ratios[..i]).columnOf
      invariant columns == Columns(numCols, columnOf)
    {
      ghost var before := colHeights[..];
      var estimatedAspectRatio := EstimatedAspectRatio(images[i]);
      var minColIndex := PlaceItem(colHeights, estimatedAspectRatio);
      GreedyAdvance(numCols, ratios, i, before, columnOf, minColIndex, colHeights[..]);
      ColumnsAppend(numCols, columnOf, minColIndex);
      columns := columns[minColIndex := columns[minColIndex] + [i]];
      columnOf := columnOf + [minColIndex];
    }
    assert ratios[..|images|] == ratios;
  }

  // ---------------------------------------------------------------------------
  // What the greedy rule guarantees

  /** Placing more items never changes where earlier items went. */
  lemma {:induction false} GreedyPrefix(numCols: nat, ratios: seq<real>, k: nat)
    requires numCols >= 1 && k <= |ratios|
    ensures Greedy(numCols, ratios[..k]).columnOf == Greedy(numCols, ratios).columnOf[..k]
    decreases |ratios|
  {
    if k < |ratios| {
      var init := ratios[..|ratios| - 1];
      GreedyPrefix(numCols, init, k);
      assert init[..k] == ratios[..k];
    } else {
      assert ratios[..k] == ratios;
    }
  }

  /**
   * Item `k` goes to the first column of least height among the heights
   * before it, and only that column grows, by exactly the item's ratio.
   */
  lemma GreedyPlacement(numCols: nat, ratios: seq<real>, k: nat)
    requires numCols >= 1 && k < |ratios|
    ensures var before := Greedy(numCols, ratios[..k]).heights;
            var c := Greedy(numCols, ratios).columnOf[k];
            && (forall j :: 0 <= j < numCols ==> before[c] <= before[j])
            && (forall j :: 0 <= j < c ==> before[j] > before[c])
            && Greedy(numCols, ratios[..k + 1]).heights == before[c := before[c] + ratios[k]]
  {
    var l := Greedy(numCols, ratios[..k]);
    var next := Greedy(numCols, ratios[..k + 1]);
    GreedyStep(numCols, ratios, k);
    assert next == Place(l, ratios[k]);
    PlaceLowest(l, ratios[k]);
    var c := next.columnOf[k];
    GreedyPrefix(numCols, ratios, k + 1);
    assert Greedy(numCols, ratios).columnOf[k] == c;
  }

  lemma {:induction false} SumUpdate(s: seq<real>, m: nat, v: real)
    requires m < |s|
    ensures Sum(s[m := v]) == Sum(s) - s[m] + v
  {
    if m < |s| - 1 {
      SumUpdate(s[..|s| - 1], m, v);
      assert s[m := v][..|s| - 1] == s[..|s| - 1][m := v];
    } else {
      assert s[m := v][..|s| - 1] == s[..|s| - 1];
    }
  }

  lemma {:induction false} SumZeros(n: nat)
    ensures Sum(seq(n, _ => 0.0)) == 0.0
  {
    if n > 0 {
      SumZeros(n - 1);
      assert seq(n, _ => 0.0)[..n - 1] == seq(n - 1, _ => 0.0);
    }
  }

  /** The heights add up to the sum of the ratios placed. */
  lemma {:induction false} GreedySum(numCols: nat, ratios: seq<real>)
    requires numCols >= 1
    ensures Sum(Greedy(numCols, ratios).heights) == Sum(ratios)
  {
    if ratios == [] {
      SumZeros(numCols);
    } else {
      var prev := Greedy(numCols, ratios[..|ratios| - 1]);
      GreedySum(numCols, ratios[..|ratios| - 1]);
      var m := ArgMin(prev.heights);
      SumUpdate(prev.heights, m, prev.heights[m] + ratios[|ratios| - 1]);
    }
  }

  /**
   * The balance bound: no column is more than the largest ratio placed
   * above any other, and no column is negative.
   */
  lemma {:induction false} GreedyBalance(numCols: nat, ratios: seq<real>)
    requires numCols >= 1 && AllPositive(ratios)
    ensures Balanced(Greedy(numCols, ratios).heights, MaxRatio(ratios))
  {
    if ratios != [] {
      var init := ratios[..|ratios| - 1];
      assert AllPositive(init);
      GreedyBalance(numCols, init);
      var prev := Greedy(numCols, init).heights;
      var bound := MaxRatio(init);
      assert Balanced(prev, bound);
      var m := ArgMin(prev);
      var x := ratios[|ratios| - 1];
      var h := Greedy(numCols, ratios).heights;
      assert h == prev[m := prev[m] + x];
      assert x > 0.0;
      assert MaxRatio(ratios) >= bound && MaxRatio(ratios) >= x;
      forall i, j | 0 <= i < numCols && 0 <= j < numCols
        ensures 0.0 <= h[i] && h[i] - h[j] <= MaxRatio(ratios)
      {
        assert prev[m] <= prev[j] && prev[m] <= prev[i];
        assert 0.0 <= prev[i] && prev[i] - prev[j] <= bound;
        assert 0.0 <= prev[m] && prev[j] - prev[m] <= bound;
      }
    }
  }

  /** A column holds an item exactly when the item was placed in it. */
  lemma {:induction false} ColumnItemsMembership(columnOf: seq<nat>, c: int, k: nat)
    ensures k in ColumnItems(columnOf, c) <==> k < |columnOf| && columnOf[k] == c
  {
    if columnOf != [] {
      ColumnItemsMembership(columnOf[..|columnOf| - 1], c, k);
    }
  }

  predicate StrictlyIncreasing(s: seq<nat>) {
    forall i, j :: 0 <= i < j < |s| ==> s[i] < s[j]
  }

  /** Within a column, items appear in input order, each once. */
  lemma {:induction false} ColumnItemsIncreasing(columnOf: seq<nat>, c: int)
    ensures StrictlyIncreasing(ColumnItems(columnOf, c))
  {
    if columnOf != [] {
      var init := columnOf[..|columnOf| - 1];
      ColumnItemsIncreasing(init, c);
      var a := ColumnItems(init, c);
      var items := ColumnItems(columnOf, c);
      assert items == a + (if columnOf[|columnOf| - 1] == c then [|init|] else []);
      forall i, j | 0 <= i < j < |items|
        ensures items[i] < items[j]
      {
        assert items[i] == a[i] && a[i] < |init|;
        if j < |a| {
          assert items[j] == a[j];
        }
      }
    }
  }

  /** The columns the placement loop fills for these images. */
  function FinalColumns(numCols: nat, images: seq<ImageElement>): seq<seq<nat>>
    requires numCols >= 1
    requires forall i :: 0 <= i < |images| ==> WellSized(images[i])
  {
    Columns(numCols, Greedy(numCols, Ratios(images)).columnOf)
  }

  /** Every item lands in exactly one column, in input order within it. */
  lemma PlacedExactlyOnce(numCols: nat, images: seq<ImageElement>, k: nat)
    requires numCols >= 1 && k < |images|
    requires forall i :: 0 <= i < |images| ==> WellSized(images[i])
    ensures exists c :: 0 <= c < numCols && k in FinalColumns(numCols, images)[c]
    ensures forall c, d ::
              (0 <= c < numCols && 0 <= d < numCols && k in FinalColumns(numCols, images)[c] && k in FinalColumns(numCols, images)[d])
              ==> c == d
    ensures forall c :: 0 <= c < numCols ==> StrictlyIncreasing(FinalColumns(numCols, images)[c])
  {
    var columnOf := Greedy(numCols, Ratios(images)).columnOf;
    var columns := FinalColumns(numCols, images);
    forall c | 0 <= c < numCols
      ensures k in columns[c] <==> columnOf[k] == c
      ensures StrictlyIncreasing(columns[c])
    {
      ColumnItemsMembership(columnOf, c, k);
      ColumnItemsIncreasing(columnOf, c);
    }
    var c := columnOf[k];
    assert c < numCols && k in columns[c];
  }
}
