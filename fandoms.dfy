/**
 * The fandom menu: every fandom named by some record, each once, sorted.
 * The page collects them in a Set (insertion-ordered, no duplicates) by a
 * loop over the master data, copies the Set into an array and sorts it by
 * `localeCompare`, which the model takes as an abstract total order `leq`.
 */
module FandomMenu {
  import opened Records
  import Filtering

  /** The elements of a sequence as a set. */
  function Elems(s: seq<string>): set<string> {
    set x | x in s
  }

  predicate NoDuplicates(s: seq<string>) {
    forall i, j :: 0 <= i < j < |s| ==> s[i] != s[j]
  }

  /** Every fandom named by some record of `data` (a missing list names none). */
  function FandomSet(data: seq<ImageRecord>): (fs: set<string>)
    ensures forall f :: f in fs <==> exists i :: 0 <= i < |data| && f in Filtering.Fandoms(data[i])
  {
    if data == [] then {}
    else
      var init := data[..|data| - 1];
      assert forall i :: 0 <= i < |init| ==> init[i] == data[i];
      FandomSet(init) + Elems(Filtering.Fandoms(data[|data| - 1]))
  }

  // ---------------------------------------------------------------------------
  // The Set, as an insertion-ordered sequence

  /** `a` is an initial segment of `b`. */
  predicate IsPrefix(a: seq<string>, b: seq<string>) {
    |a| <= |b| && b[..|a|] == a
  }

  lemma PrefixTransitive(a: seq<string>, b: seq<string>, c: seq<string>)
    requires IsPrefix(a, b) && IsPrefix(b, c)
    ensures IsPrefix(a, c)
  {
    assert c[..|a|] == c[..|b|][..|a|];
  }

  /** `set.add(f)`: a new element goes at the end, a present one changes nothing. */
  function Add(acc: seq<string>, f: string): (r: seq<string>)
    ensures Elems(r) == Elems(acc) + {f}
    ensures NoDuplicates(acc) ==> NoDuplicates(r)
    ensures IsPrefix(acc, r)
  {
    if f in acc then acc else acc + [f]
  }

  /** `fs.forEach(f => set.add(f))`. */
  function AddAll(acc: seq<string>, fs: seq<string>): (r: seq<string>)
    ensures Elems(r) == Elems(acc) + Elems(fs)
    ensures NoDuplicates(acc) ==> NoDuplicates(r)
    ensures IsPrefix(acc, r)
  {
    if fs == [] then acc
    else
      var init := fs[..|fs| - 1];
      assert fs == init + [fs[|fs| - 1]];
      var prev := AddAll(acc, init);
      var r := Add(prev, fs[|fs| - 1]);
      PrefixTransitive(acc, prev, r);
      r
  }

  /** The Set after the loop has visited the records of `data` in order. */
  function Collected(data: seq<ImageRecord>): (fandoms: seq<string>)
    ensures NoDuplicates(fandoms)
    ensures Elems(fandoms) == FandomSet(data)
  {
    if data == [] then []
    else AddAll(Collected(data[..|data| - 1]), Filtering.Fandoms(data[|data| - 1]))
  }

  /** Visiting more records only appends: a fandom keeps the place of its first sighting. */
  lemma {:induction false} CollectedPrefix(data: seq<ImageRecord>, k: nat)
    requires k <= |data|
    ensures IsPrefix(Collected(data[..k]), Collected(data))
    decreases |data|
  {
    if k < |data| {
      var init := data[..|data| - 1];
      CollectedPrefix(init, k);
      assert init[..k] == data[..k];
      PrefixTransitive(Collected(data[..k]), Collected(init), Collected(data));
    } else {
      assert data[..k] == data;
    }
  }

  /** The loop that fills the Set, with its nested forEach over one record's fandoms. */
  method CollectFandoms(data: seq<ImageRecord>) returns (fandoms: seq<string>)
    ensures fandoms == Collected(data)
  {
    fandoms := [];
    assert data[..0] == [];
    for i := 0 to |data|
      invariant fandoms == Collected(data[..i])
    {
      var image := data[i];
      assert data[..i + 1][..i] == data[..i];
      if image.entry.fandom.Some? && |image.entry.fandom.value| > 0 {
        var fs := image.entry.fandom.value;
        ghost var start := fandoms;
        assert fs[..0] == [];
        for j := 0 to |fs|
          invariant fandoms == AddAll(start, fs[..j])
        {
          assert fs[..j + 1][..j] == fs[..j];
          if fs[j] !in fandoms {
            fandoms := fandoms + [fs[j]];
          }
        }
        assert fs[..|fs|] == fs;
      } else {
        assert Filtering.Fandoms(image) == [];
      }
    }
    assert data[..|data|] == data;
  }

  // ---------------------------------------------------------------------------
  // Sorting by an abstract total order

  /** What the model asks of `localeCompare`: a total order on strings. */
  ghost predicate TotalOrder(leq: (string, string) -> bool) {
    (forall a :: leq(a, a)) &&
    (forall a, b :: leq(a, b) && leq(b, a) ==> a == b) &&
    (forall a, b, c :: leq(a, b) && leq(b, c) ==> leq(a, c)) &&
    (forall a, b :: leq(a, b) || leq(b, a))
  }

  predicate SortedBy(s: seq<string>, leq: (string, string) -> bool) {
    forall i, j :: 0 <= i < j < |s| ==> leq(s[i], s[j])
  }

  /** Insert `x` after every element not above it. */
  function InsertBy(x: string, s: seq<string>, leq: (string, string) -> bool): (r: seq<string>)
    requires TotalOrder(leq) && SortedBy(s, leq)
    ensures SortedBy(r, leq)
    ensures multiset(r) == multiset(s) + multiset{x}
  {
    if s == [] then [x]
    else if !leq(s[0], x) then
      assert forall j :: 0 <= j < |s| ==> leq(x, s[j]) by {
        forall j | 0 <= j < |s| ensures leq(x, s[j]) {
          assert leq(x, s[0]) && leq(s[0], s[j]);
        }
      }
      [x] + s
    else
      var rest := InsertBy(x, s[1..], leq);
      assert s == [s[0]] + s[1..];
      assert forall y :: y in multiset(rest) ==> y == x || y in multiset(s[1..]);
      assert forall j :: 0 <= j < |rest| ==> leq(s[0], rest[j]) by {
        forall j | 0 <= j < |rest| ensures leq(s[0], rest[j]) {
          assert rest[j] in multiset(rest);
        }
      }
      [s[0]] + rest
  }

  /** `Array.from(set).sort((a, b) => a.localeCompare(b))`. */
  function SortByOrder(s: seq<string>, leq: (string, string) -> bool): (r: seq<string>)
    requires TotalOrder(leq)
    ensures SortedBy(r, leq)
    ensures multiset(r) == multiset(s)
  {
    if s == [] then []
    else
      assert s == s[..|s| - 1] + [s[|s| - 1]];
      InsertBy(s[|s| - 1], SortByOrder(s[..|s| - 1], leq), leq)
  }

  lemma MultisetNoDuplicates(s: seq<string>, r: seq<string>)
    requires multiset(r) == multiset(s) && NoDuplicates(s)
    ensures NoDuplicates(r) && Elems(r) == Elems(s)
  {
    forall i, j | 0 <= i < j < |r| ensures r[i] != r[j] {
      if r[i] == r[j] {
        assert r == r[..i] + [r[i]] + r[i + 1..j] + [r[j]] + r[j + 1..];
        assert multiset(r)[r[i]] >= 2;
        SingleOccurrence(s, r[i]);
        assert false;
      }
    }
    forall x ensures x in Elems(r) <==> x in Elems(s) {
      assert x in r <==> x in multiset(r);
      assert x in s <==> x in multiset(s);
    }
  }

  lemma {:induction false} SingleOccurrence(s: seq<string>, x: string)
    requires NoDuplicates(s)
    ensures multiset(s)[x] <= 1
  {
    if s != [] {
      var init := s[..|s| - 1];
      assert s == init + [s[|s| - 1]];
      SingleOccurrence(init, x);
      if s[|s| - 1] == x {
        assert x !in init;
      }
    }
  }

  lemma EmptyElems(s: seq<string>)
    ensures Elems(s) == {} ==> s == []
  {
    if s != [] {
      assert s[0] in Elems(s);
    }
  }

  /** Two sorted sequences without duplicates holding the same strings are the same sequence. */
  lemma {:induction false} SortedUnique(r1: seq<string>, r2: seq<string>, leq: (string, string) -> bool)
    requires TotalOrder(leq)
    requires SortedBy(r1, leq) && NoDuplicates(r1)
    requires SortedBy(r2, leq) && NoDuplicates(r2)
    requires Elems(r1) == Elems(r2)
    ensures r1 == r2
    decreases |r1|
  {
    if r1 != [] {
      assert r1[0] in Elems(r2);
      assert r2 != [];
      assert r2[0] in Elems(r1);
      var i :| 0 <= i < |r2| && r2[i] == r1[0];
      var j :| 0 <= j < |r1| && r1[j] == r2[0];
      assert leq(r1[0], r1[j]) && leq(r2[0], r2[i]);
      assert r1[0] == r2[0];
      var t1, t2 := r1[1..], r2[1..];
      forall x ensures x in Elems(t1) <==> x in Elems(t2) {
        assert x in Elems(t1) <==> x in Elems(r1) && x != r1[0];
        assert x in Elems(t2) <==> x in Elems(r2) && x != r2[0];
      }
      SortedUnique(t1, t2, leq);
      assert r1 == [r1[0]] + t1 && r2 == [r2[0]] + t2;
    } else {
      EmptyElems(r2);
    }
  }

  // ---------------------------------------------------------------------------
  // The menu

  /** The menu entries, in order: collect the Set, then sort its array copy. */
  method BuildMenu(data: seq<ImageRecord>, leq: (string, string) -> bool) returns (menu: seq<string>)
    requires TotalOrder(leq)
    ensures SortedBy(menu, leq)
    ensures NoDuplicates(menu)
    ensures Elems(menu) == FandomSet(data)
  {
    var fandoms := CollectFandoms(data);
    menu := SortByOrder(fandoms, leq);
    MultisetNoDuplicates(fandoms, menu);
  }

  /**
   * The menu depends only on which fandoms occur: any sorted duplicate-free
   * listing of them is the menu, whatever the order of the records.
   */
  lemma MenuDeterminedBySet(data1: seq<ImageRecord>, data2: seq<ImageRecord>, leq: (string, string) -> bool)
    requires TotalOrder(leq) && FandomSet(data1) == FandomSet(data2)
    ensures SortByOrder(Collected(data1), leq) == SortByOrder(Collected(data2), leq)
  {
    var m1, m2 := SortByOrder(Collected(data1), leq), SortByOrder(Collected(data2), leq);
    MultisetNoDuplicates(Collected(data1), m1);
    MultisetNoDuplicates(Collected(data2), m2);
    SortedUnique(m1, m2, leq);
  }
}
