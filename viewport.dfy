/** The column-count breakpoints of the masonry layout. */
module Viewport {

  /** Number of masonry columns for a viewport width in CSS pixels. */
  function ColumnCount(width: int): (n: int)
    ensures 1 <= n <= 4
    ensures width < 768 ==> n == 1
    ensures 768 <= width < 1024 ==> n == 2
    ensures 1024 <= width < 1280 ==> n == 3
    ensures 1280 <= width ==> n == 4
  {
    if width >= 1280 then 4
    else if width >= 1024 then 3
    else if width >= 768 then 2
    else 1
  }

  /** A wider viewport never gets fewer columns. */
  lemma ColumnCountMonotone(w1: int, w2: int)
    requires w1 <= w2
    ensures ColumnCount(w1) <= ColumnCount(w2)
  {}
}
