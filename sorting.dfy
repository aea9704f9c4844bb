/**
 * The sort half of the filter/sort engine: getSortedData orders a copy of
 * the filtered records by parsed date. `Array.prototype.sort` is stable
 * (ECMA-262, 10th edition, section 22.1.3.27), so records with equal dates
 * keep their input order; the model is a stable insertion sort, and
 * SortedStableUnique shows that any sorted, stable arrangement is this one.
 */
module Sorting {
  import opened Wrappers
  import opened Records
  import Dates

  const Newest: string := "newest"
  const Oldest: string := "oldest"

  /** The sort key from the dropdown: its value, or "newest" when absent or empty. */
  function SortOrder(dropdownValue: Option<string>): (order: string)
    ensures order != ""
    ensures dropdownValue == None ==> order == Newest
    ensures dropdownValue == Some("") ==> order == Newest
    ensures dropdownValue.Some? && dropdownValue.value != "" ==> order == dropdownValue.value
  {
    if dropdownValue.Some? && dropdownValue.value != "" then dropdownValue.value else Newest
  }

  /** `a` may stand before `b`: dates non-increasing when descending, non-decreasing otherwise. */
  predicate InOrder(a: ImageRecord, b: ImageRecord, descending: bool) {
    if descending then a.parsedDate >= b.parsedDate else a.parsedDate <= b.parsedDate
  }

  predicate Sorted(s: seq<ImageRecord>, descending: bool) {
    forall i, j :: 0 <= i < j < |s| ==> InOrder(s[i], s[j], descending)
  }

  /** The records of `s` dated `k`, in their order in `s`. */
  function DateRun(s: seq<ImageRecord>, k: int): (run: seq<ImageRecord>)
    ensures forall x :: x in run ==> x in s && x.parsedDate == k
  {
    if s == [] then []
    else (if s[0].parsedDate == k then [s[0]] else []) + DateRun(s[1..], k)
  }

  /** Ties keep their relative order: every date's run is the same in both sequences. */
  ghost predicate StableArrangement(r: seq<ImageRecord>, s: seq<ImageRecord>) {
    forall k :: DateRun(r, k) == DateRun(s, k)
  }

  // ---------------------------------------------------------------------------
  // Stable insertion sort

  lemma SortedCons(h: ImageRecord, t: seq<ImageRecord>, descending: bool)
    requires Sorted(t, descending)
    requires forall y :: y in t ==> InOrder(h, y, descending)
    ensures Sorted([h] + t, descending)
  {
    var r := [h] + t;
    forall i, j | 0 <= i < j < |r|
      ensures InOrder(r[i], r[j], descending)
    {
      assert r[j] == t[j - 1] && r[j] in t;
      if i > 0 {
        assert r[i] == t[i - 1];
      }
    }
  }

  lemma FirstPrecedesAll(s: seq<ImageRecord>, descending: bool)
    requires Sorted(s, descending)
    ensures s != [] ==> forall y :: y in s ==> InOrder(s[0], y, descending)
  {
    forall y | y in s && s != []
      ensures InOrder(s[0], y, descending)
    {
      var j :| 0 <= j < |s| && s[j] == y;
      if j > 0 {
        assert InOrder(s[0], s[j], descending);
      }
    }
  }

  lemma InsertedAfterHead(x: ImageRecord, s: seq<ImageRecord>, rest: seq<ImageRecord>, descending: bool)
    requires Sorted(s, descending) && s != [] && !InOrder(x, s[0], descending)
    requires multiset(rest) == multiset(s[1..]) + multiset{x}
    ensures forall y :: y in rest ==> InOrder(s[0], y, descending)
  {
    FirstPrecedesAll(s, descending);
    forall y | y in rest
      ensures InOrder(s[0], y, descending)
    {
      assert y in multiset(rest);
      if y != x {
        assert y in multiset(s[1..]);
        assert y in s;
      }
    }
  }

  /** Insert `x` before the first record it may precede. */
  function Insert(x: ImageRecord, s: seq<ImageRecord>, descending: bool): (r: seq<ImageRecord>)
    requires Sorted(s, descending)
    ensures Sorted(r, descending)
    ensures multiset(r) == multiset(s) + multiset{x}
  {
    if s == [] || InOrder(x, s[0], descending) then
      FirstPrecedesAll(s, descending);
      SortedCons(x, s, descending);
      [x] + s
    else
      assert Sorted(s[1..], descending);
      var rest := Insert(x, s[1..], descending);
      InsertedAfterHead(x, s, rest, descending);
      SortedCons(s[0], rest, descending);
      assert s == [s[0]] + s[1..];
      [s[0]] + rest
  }

  function InsertionSort(s: seq<ImageRecord>, descending: bool): (r: seq<ImageRecord>)
    ensures Sorted(r, descending)
    ensures multiset(r) == multiset(s)
  {
    if s == [] then []
    else
      assert s == [s[0]] + s[1..];
      Insert(s[0], InsertionSort(s[1..], descending), descending)
  }

  /** Inserting `x` adds it at the front of its own date's run and leaves other runs alone. */
  lemma {:induction false} InsertDateRun(x: ImageRecord, s: seq<ImageRecord>, descending: bool, k: int)
    requires Sorted(s, descending)
    ensures DateRun(Insert(x, s, descending), k) ==
              if x.parsedDate == k then [x] + DateRun(s, k) else DateRun(s, k)
  {
    if s == [] || InOrder(x, s[0], descending) {
      assert ([x] + s)[1..] == s;
    } else {
      assert Sorted(s[1..], descending);
      InsertDateRun(x, s[1..], descending, k);
      var rest := Insert(x, s[1..], descending);
      assert Insert(x, s, descending) == [s[0]] + rest;
      assert s[0].parsedDate != x.parsedDate;
      assert ([s[0]] + rest)[1..] == rest;
    }
  }

  /** The insertion sort is stable. */
  lemma {:induction false} InsertionSortStable(s: seq<ImageRecord>, descending: bool, k: int)
    ensures DateRun(InsertionSort(s, descending), k) == DateRun(s, k)
  {
    if s != [] {
      InsertionSortStable(s[1..], descending, k);
      InsertDateRun(s[0], InsertionSort(s[1..], descending), descending, k);
    }
  }

  lemma InsertionSortStableAll(s: seq<ImageRecord>, descending: bool)
    ensures StableArrangement(InsertionSort(s, descending), s)
  {
    forall k {
      InsertionSortStable(s, descending, k);
    }
  }

  /**
   * A sorted stable arrangement is unique: two sorted sequences with the same
   * run for every date are equal. So whatever algorithm the engine runs,
   * `sort` with this comparator has exactly one possible outcome.
   */
  lemma {:induction false} SortedStableUnique(r1: seq<ImageRecord>, r2: seq<ImageRecord>, descending: bool)
    requires Sorted(r1, descending) && Sorted(r2, descending)
    requires forall k :: DateRun(r1, k) == DateRun(r2, k)
    ensures r1 == r2
  {
    if r1 == [] || r2 == [] {
      HeadHasRun(r1);
      HeadHasRun(r2);
    } else {
      SortedStableSameHead(r1, r2, descending);
      forall k
        ensures DateRun(r1[1..], k) == DateRun(r2[1..], k)
      {
        var head := if r1[0].parsedDate == k then [r1[0]] else [];
        assert DateRun(r1, k) == head + DateRun(r1[1..], k);
        assert DateRun(r2, k) == head + DateRun(r2[1..], k);
        assert DateRun(r1, k) == DateRun(r2, k);
        assert DateRun(r1[1..], k) == DateRun(r1, k)[|head|..];
        assert DateRun(r2[1..], k) == DateRun(r2, k)[|head|..];
      }
      SortedStableUnique(r1[1..], r2[1..], descending);
      assert r1 == [r1[0]] + r1[1..] && r2 == [r2[0]] + r2[1..];
    }
  }

  lemma HeadHasRun(r: seq<ImageRecord>)
    ensures r != [] ==> DateRun(r, r[0].parsedDate) != []
  {}

  /** Both sequences start with the same record: the first of the extreme date. */
  lemma SortedStableSameHead(r1: seq<ImageRecord>, r2: seq<ImageRecord>, descending: bool)
    requires Sorted(r1, descending) && Sorted(r2, descending)
    requires r1 != [] && r2 != []
    requires forall k :: DateRun(r1, k) == DateRun(r2, k)
    ensures r1[0] == r2[0]
  {
    var k1, k2 := r1[0].parsedDate, r2[0].parsedDate;
    assert DateRun(r1, k1)[0] == r1[0];
    var y2 := DateRun(r2, k1)[0];
    assert y2 in r2 && y2.parsedDate == k1;
    FirstPrecedesAll(r2, descending);
    assert DateRun(r2, k2)[0] == r2[0];
    var y1 := DateRun(r1, k2)[0];
    assert y1 in r1 && y1.parsedDate == k2;
    FirstPrecedesAll(r1, descending);
    assert k1 == k2;
  }

  // ---------------------------------------------------------------------------
  // getSortedData

  /** Sort a copy by the given key: "newest" descending, "oldest" ascending, else as is. */
  function SortBy(data: seq<ImageRecord>, order: string): (sorted: seq<ImageRecord>)
    ensures multiset(sorted) == multiset(data)
    ensures StableArrangement(sorted, data)
    ensures order == Newest ==> Sorted(sorted, true)
    ensures order == Oldest ==> Sorted(sorted, false)
    ensures order != Newest && order != Oldest ==> sorted == data
  {
    if order == Newest then
      InsertionSortStableAll(data, true);
      InsertionSort(data, true)
    else if order == Oldest then
      InsertionSortStableAll(data, false);
      InsertionSort(data, false)
    else data
  }

  /** getSortedData with the sort dropdown's value. */
  function GetSortedData(data: seq<ImageRecord>, sortDropdown: Option<string>): (sorted: seq<ImageRecord>)
    ensures multiset(sorted) == multiset(data)
    ensures StableArrangement(sorted, data)
    ensures sortDropdown == None || sortDropdown == Some("") || sortDropdown == Some(Newest) ==> Sorted(sorted, true)
    ensures sortDropdown == Some(Oldest) ==> Sorted(sorted, false)
    ensures sortDropdown.Some? && sortDropdown.value !in {"", Newest, Oldest} ==> sorted == data
  {
    SortBy(data, SortOrder(sortDropdown))
  }

  /** The result of "newest" is the one sorted, stable arrangement of the input. */
  lemma SortByIsTheStableSort(data: seq<ImageRecord>, r: seq<ImageRecord>, descending: bool)
    requires Sorted(r, descending) && StableArrangement(r, data)
    ensures r == SortBy(data, if descending then Newest else Oldest)
  {
    var sorted := SortBy(data, if descending then Newest else Oldest);
    forall k
      ensures DateRun(r, k) == DateRun(sorted, k)
    {
      assert DateRun(r, k) == DateRun(data, k);
    }
    SortedStableUnique(r, sorted, descending);
  }

  // ---------------------------------------------------------------------------
  // Newest against oldest

  function Reverse<T>(s: seq<T>): (r: seq<T>)
    ensures |r| == |s|
    ensures forall i :: 0 <= i < |s| ==> r[i] == s[|s| - 1 - i]
  {
    if s == [] then [] else Reverse(s[1..]) + [s[0]]
  }

  /** No two records share a date. */
  predicate DatesDistinct(s: seq<ImageRecord>) {
    forall i, j :: 0 <= i < j < |s| ==> s[i].parsedDate != s[j].parsedDate
  }

  lemma {:induction false} DistinctRunsAreShort(s: seq<ImageRecord>, k: int)
    requires DatesDistinct(s)
    ensures |DateRun(s, k)| <= 1
  {
    if s != [] {
      DistinctRunsAreShort(s[1..], k);
      if s[0].parsedDate == k {
        forall x | x in s[1..]
          ensures x.parsedDate != k
        {
          var j :| 0 <= j < |s[1..]| && s[1..][j] == x;
          assert s[j + 1] == x;
        }
        NoRunWithoutDate(s[1..], k);
      }
    }
  }

  lemma {:induction false} NoRunWithoutDate(s: seq<ImageRecord>, k: int)
    requires forall x :: x in s ==> x.parsedDate != k
    ensures DateRun(s, k) == []
  {
    if s != [] {
      NoRunWithoutDate(s[1..], k);
    }
  }

  lemma {:induction false} ReverseDateRun(s: seq<ImageRecord>, k: int)
    ensures DateRun(Reverse(s), k) == Reverse(DateRun(s, k))
  {
    if s != [] {
      ReverseDateRun(s[1..], k);
      DateRunAppend(Reverse(s[1..]), [s[0]], k);
      var head := if s[0].parsedDate == k then [s[0]] else [];
      assert DateRun([s[0]], k) == head;
      ReverseAppend(head, DateRun(s[1..], k));
    }
  }

  lemma {:induction false} DateRunAppend(a: seq<ImageRecord>, b: seq<ImageRecord>, k: int)
    ensures DateRun(a + b, k) == DateRun(a, k) + DateRun(b, k)
  {
    if a != [] {
      DateRunAppend(a[1..], b, k);
      assert (a + b)[1..] == a[1..] + b;
    } else {
      assert a + b == b;
    }
  }

  lemma ReverseAppend<T>(a: seq<T>, b: seq<T>)
    ensures Reverse(a + b) == Reverse(b) + Reverse(a)
  {
  }

  /** Without ties, "newest" is exactly "oldest" read backwards. */
  lemma NewestReversesOldest(data: seq<ImageRecord>)
    requires DatesDistinct(data)
    ensures SortBy(data, Newest) == Reverse(SortBy(data, Oldest))
  {
    var oldest := SortBy(data, Oldest);
    var back := Reverse(oldest);
    assert Sorted(back, true);
    forall k
      ensures DateRun(back, k) == DateRun(data, k)
    {
      ReverseDateRun(oldest, k);
      assert DateRun(oldest, k) == DateRun(data, k);
      DistinctRunsAreShort(data, k);
      assert Reverse(DateRun(data, k)) == DateRun(data, k);
    }
    SortByIsTheStableSort(data, back, true);
  }

  /** Two records: the sort swaps them exactly when the first may not precede the second. */
  lemma SortPair(a: ImageRecord, b: ImageRecord, descending: bool)
    ensures InsertionSort([a, b], descending) == if InOrder(a, b, descending) then [a, b] else [b, a]
  {
    assert [a, b][1..] == [b];
    assert [b][1..] == [];
    assert InsertionSort([b], descending) == [b];
  }

  /** Two records dated "2020" and "2021": newest puts 2021 first, oldest 2020 first. */
  lemma YearScenario(a: ImageRecord, b: ImageRecord)
    requires a.parsedDate == Dates.ParseDateKey(Some("2020"))
    requires b.parsedDate == Dates.ParseDateKey(Some("2021"))
    ensures SortBy([a, b], Newest) == [b, a] && SortBy([b, a], Newest) == [b, a]
    ensures SortBy([a, b], Oldest) == [a, b] && SortBy([b, a], Oldest) == [a, b]
  {
    Dates.LaterYearSortsLater();
    SortPair(a, b, true);
    SortPair(b, a, true);
    SortPair(a, b, false);
    SortPair(b, a, false);
  }
}
