/**
 * The page state around the gallery: the tag checkboxes, the select-all
 * flag, the two dropdown values and the saved preferences in local storage.
 *
 * Storage is a string-keyed map of strings. JSON is a parameter (a Codec);
 * the round trip needs only that parsing what was stringified gives the
 * map back. The checkbox elements are a sequence in document order; the
 * jQuery selections over them (`[data-tag="t"]`, `#id`) become functions
 * over that sequence.
 */
module Session {
  import opened Wrappers
  import opened Records
  import Filtering
  import Sorting
  import Viewport
  import Masonry
  import FandomMenu

  /** A `.checkbox-item` element: its id, its `data-tag` attribute if any, and its state. */
  datatype Checkbox = Checkbox(id: string, tag: Option<string>, checked: bool)

  /** JSON.stringify and JSON.parse for the saved filter map; parse yields None where it throws. */
  datatype Codec = Codec(stringify: map<string, bool> -> string, parse: string -> Option<map<string, bool>>)

  /** Parsing gives back what was stringified. */
  ghost predicate Faithful(codec: Codec) {
    forall m :: codec.parse(codec.stringify(m)) == Some(m)
  }

  const FiltersKey: string := "galleryFilters"
  const FandomKey: string := "galleryFandom"
  const SortKey: string := "gallerySort"
  const RpfTag: string := "rpf"

  // ---------------------------------------------------------------------------
  // Selection state

  predicate AllChecked(boxes: seq<Checkbox>) {
    forall i :: 0 <= i < |boxes| ==> boxes[i].checked
  }

  /** `$checkboxItems.filter(':checked').length`. */
  function CountChecked(boxes: seq<Checkbox>): (n: nat)
    ensures n <= |boxes|
  {
    if boxes == [] then 0
    else CountChecked(boxes[..|boxes| - 1]) + (if boxes[|boxes| - 1].checked then 1 else 0)
  }

  /** Comparing the two lengths is the same as asking that every checkbox be checked. */
  lemma {:induction false} CountCheckedAll(boxes: seq<Checkbox>)
    ensures CountChecked(boxes) == |boxes| <==> AllChecked(boxes)
  {
    if boxes != [] {
      var init := boxes[..|boxes| - 1];
      CountCheckedAll(init);
      assert forall i :: 0 <= i < |init| ==> init[i] == boxes[i];
    }
  }

  /** `$checkboxItems.prop('checked', v)`. */
  function SetAll(boxes: seq<Checkbox>, v: bool): seq<Checkbox> {
    seq(|boxes|, i requires 0 <= i < |boxes| => boxes[i].(checked := v))
  }

  /** `$('.checkbox-item[data-tag="t"]').prop('checked', v)` (also the `[data-tag="rpf"]` selection). */
  function SetTag(boxes: seq<Checkbox>, t: string, v: bool): seq<Checkbox> {
    seq(|boxes|, i requires 0 <= i < |boxes| => if boxes[i].tag == Some(t) then boxes[i].(checked := v) else boxes[i])
  }

  /** Same elements: ids and tags agree position by position; only the checked states may differ. */
  predicate SameElements(a: seq<Checkbox>, b: seq<Checkbox>) {
    |a| == |b| && forall i :: 0 <= i < |a| ==> a[i].id == b[i].id && a[i].tag == b[i].tag
  }

  /** Checkboxes sharing a non-empty tag agree, as the change handler keeps them. */
  predicate Synced(boxes: seq<Checkbox>) {
    forall i, j ::
      (0 <= i < |boxes| && 0 <= j < |boxes| && boxes[i].tag.Some? && boxes[i].tag.value != "" && boxes[i].tag == boxes[j].tag)
      ==> boxes[i].checked == boxes[j].checked
  }

  /** The select-all click sets every checkbox; afterwards all are checked exactly when it checked them. */
  lemma SelectAllSetsEvery(boxes: seq<Checkbox>, v: bool)
    ensures SameElements(SetAll(boxes, v), boxes)
    ensures forall i :: 0 <= i < |boxes| ==> SetAll(boxes, v)[i].checked == v
    ensures boxes != [] ==> (AllChecked(SetAll(boxes, v)) <==> v)
    ensures Synced(SetAll(boxes, v))
  {
    if boxes != [] {
      assert SetAll(boxes, v)[0].checked == v;
    }
  }

  /**
   * A change of checkbox `k` to `v` in a synced state: copying `v` to
   * every checkbox with the same non-empty tag gives a synced state again.
   */
  lemma ChangeKeepsSynced(boxes: seq<Checkbox>, k: nat, v: bool)
    requires k < |boxes| && Synced(boxes)
    requires boxes[k].tag.Some? && boxes[k].tag.value != ""
    ensures var after := SetTag(boxes[k := boxes[k].(checked := v)], boxes[k].tag.value, v);
            Synced(after) && SameElements(after, boxes) && after[k].checked == v
  {
    var changed := boxes[k := boxes[k].(checked := v)];
    var after := SetTag(changed, boxes[k].tag.value, v);
    forall i, j | 0 <= i < |after| && 0 <= j < |after| && after[i].tag.Some? && after[i].tag.value != "" &&
      after[i].tag == after[j].tag
      ensures after[i].checked == after[j].checked
    {
      if after[i].tag != boxes[k].tag {
        assert i != k && j != k;
        assert after[i] == boxes[i] && after[j] == boxes[j];
      }
    }
  }

  // ---------------------------------------------------------------------------
  // Saving

  /** What `localStorage.setItem` stores for a dropdown value: `undefined` becomes "undefined". */
  function Stringified(value: Option<string>): (s: string)
    ensures value.Some? ==> s == value.value
  {
    if value.Some? then value.value else "undefined"
  }

  /** The object built by `each`: checkbox id to checked state; a later duplicate id overwrites. */
  function FilterStates(boxes: seq<Checkbox>): (m: map<string, bool>)
    ensures forall x :: x in m <==> exists i :: 0 <= i < |boxes| && boxes[i].id == x
  {
    if boxes == [] then map[]
    else
      var init := boxes[..|boxes| - 1];
      assert forall i :: 0 <= i < |init| ==> init[i] == boxes[i];
      FilterStates(init)[boxes[|boxes| - 1].id := boxes[|boxes| - 1].checked]
  }

  /** When every checkbox with id `x` has the same state, that state is the one saved under `x`. */
  lemma {:induction false} FilterStatesAgree(boxes: seq<Checkbox>, x: string, v: bool)
    requires forall i :: 0 <= i < |boxes| && boxes[i].id == x ==> boxes[i].checked == v
    requires exists i :: 0 <= i < |boxes| && boxes[i].id == x
    ensures FilterStates(boxes)[x] == v
  {
    var last := boxes[|boxes| - 1];
    if last.id != x {
      var init := boxes[..|boxes| - 1];
      var i :| 0 <= i < |boxes| && boxes[i].id == x;
      assert init[i] == boxes[i];
      FilterStatesAgree(init, x, v);
    }
  }

  /** The storage after saveState. */
  function Saved(boxes: seq<Checkbox>, fandom: Option<string>, sort: Option<string>,
                 storage: map<string, string>, codec: Codec): (s: map<string, string>)
    ensures s.Keys == storage.Keys + {FiltersKey, FandomKey, SortKey}
    ensures forall k :: k in storage && k !in {FiltersKey, FandomKey, SortKey} ==> s[k] == storage[k]
  {
    storage[FiltersKey := codec.stringify(FilterStates(boxes))]
           [FandomKey := Stringified(fandom)]
           [SortKey := Stringified(sort)]
  }

  // ---------------------------------------------------------------------------
  // Loading

  /** The state loadState reads and writes. */
  datatype Prefs = Prefs(boxes: seq<Checkbox>, fandom: Option<string>, sort: Option<string>)

  /** Each saved tag sets the checkboxes carrying that `data-tag`; other checkboxes keep their state. */
  function ApplyFilters(boxes: seq<Checkbox>, saved: map<string, bool>): (r: seq<Checkbox>)
    ensures SameElements(r, boxes)
    ensures forall i :: 0 <= i < |boxes| ==>
              r[i].checked == (if boxes[i].tag.Some? && boxes[i].tag.value in saved then saved[boxes[i].tag.value] else boxes[i].checked)
  {
    seq(|boxes|, i requires 0 <= i < |boxes| =>
      if boxes[i].tag.Some? && boxes[i].tag.value in saved then boxes[i].(checked := saved[boxes[i].tag.value]) else boxes[i])
  }

  /** The state after loadState, or None where JSON.parse throws (nothing after it runs). */
  function Loaded(p: Prefs, storage: map<string, string>, codec: Codec): (r: Option<Prefs>)
    ensures FiltersKey in storage && codec.parse(storage[FiltersKey]) == None <==> r == None
    ensures r.Some? ==> SameElements(r.value.boxes, p.boxes)
    ensures FiltersKey !in storage ==> r.Some? && r.value.boxes == SetTag(p.boxes, RpfTag, true)
    ensures r.Some? && (FandomKey !in storage || storage[FandomKey] == "") ==> r.value.fandom == p.fandom
    ensures r.Some? && FandomKey in storage && storage[FandomKey] != "" ==> r.value.fandom == Some(storage[FandomKey])
    ensures r.Some? && (SortKey !in storage || storage[SortKey] == "") ==> r.value.sort == Some(Sorting.Newest)
    ensures r.Some? && SortKey in storage && storage[SortKey] != "" ==> r.value.sort == Some(storage[SortKey])
  {
    var boxes :=
      if FiltersKey !in storage then Some(SetTag(p.boxes, RpfTag, true))
      else match codec.parse(storage[FiltersKey])
        case None => None
        case Some(saved) => Some(ApplyFilters(p.boxes, saved));
    if boxes.None? then None
    else
      var fandom := if FandomKey in storage && storage[FandomKey] != "" then Some(storage[FandomKey]) else p.fandom;
      var sort := if SortKey in storage && storage[SortKey] != "" then Some(storage[SortKey]) else Some(Sorting.Newest);
      Some(Prefs(boxes.value, fandom, sort))
  }

  /** Loading never breaks the agreement of checkboxes that share a tag. */
  lemma LoadKeepsSynced(p: Prefs, storage: map<string, string>, codec: Codec)
    requires Synced(p.boxes)
    ensures Loaded(p, storage, codec).Some? ==> Synced(Loaded(p, storage, codec).value.boxes)
  {
    var r := Loaded(p, storage, codec);
    if r.Some? {
      var b := r.value.boxes;
      forall i, j | 0 <= i < |b| && 0 <= j < |b| && b[i].tag.Some? && b[i].tag.value != "" && b[i].tag == b[j].tag
        ensures b[i].checked == b[j].checked
      {
        assert p.boxes[i].tag == b[i].tag && p.boxes[j].tag == b[j].tag;
      }
    }
  }

  /**
   * Save, then load on a page with the same checkbox elements in any state:
   * the checkboxes and both dropdowns come back, provided every checkbox's
   * id is its tag, checkboxes sharing an id agree and both dropdown values
   * are non-empty strings.
   */
  lemma SaveLoadRoundTrip(p: Prefs, q: Prefs, storage: map<string, string>, codec: Codec)
    requires Faithful(codec)
    requires SameElements(q.boxes, p.boxes)
    requires forall i :: 0 <= i < |p.boxes| ==> p.boxes[i].tag == Some(p.boxes[i].id)
    requires forall i, j :: 0 <= i < |p.boxes| && 0 <= j < |p.boxes| && p.boxes[i].id == p.boxes[j].id ==>
               p.boxes[i].checked == p.boxes[j].checked
    requires p.fandom.Some? && p.fandom.value != "" && p.sort.Some? && p.sort.value != ""
    ensures Loaded(q, Saved(p.boxes, p.fandom, p.sort, storage, codec), codec) == Some(p)
  {
    var saved := Saved(p.boxes, p.fandom, p.sort, storage, codec);
    var states := FilterStates(p.boxes);
    assert saved[FiltersKey] == codec.stringify(states);
    assert codec.parse(saved[FiltersKey]) == Some(states);
    var r := Loaded(q, saved, codec);
    assert r.Some? && r.value.boxes == ApplyFilters(q.boxes, states);
    forall i | 0 <= i < |p.boxes|
      ensures r.value.boxes[i] == p.boxes[i]
    {
      var x := p.boxes[i].id;
      FilterStatesAgree(p.boxes, x, p.boxes[i].checked);
    }
    assert r.value.boxes == p.boxes;
    assert saved[FandomKey] == p.fandom.value && saved[SortKey] == p.sort.value;
  }

  // ---------------------------------------------------------------------------
  // Rendering

  /**
   * `$('#' + id)` over the checkboxes: an id names the first checkbox in
   * document order that has it.
   */
  function ControlsOf(boxes: seq<Checkbox>): (controls: Filtering.Controls)
    ensures forall x :: x in controls <==> exists i :: 0 <= i < |boxes| && boxes[i].id == x
    ensures forall i :: 0 <= i < |boxes| && (forall j :: 0 <= j < i ==> boxes[j].id != boxes[i].id) ==>
              controls[boxes[i].id] == boxes[i].checked
  {
    if boxes == [] then map[]
    else
      var rest := boxes[1..];
      assert forall i :: 0 <= i < |rest| ==> rest[i] == boxes[i + 1];
      var controls := ControlsOf(rest)[boxes[0].id := boxes[0].checked];
      assert forall i :: 1 <= i < |boxes| && (forall j :: 0 <= j < i ==> boxes[j].id != boxes[i].id) ==>
               (forall j :: 0 <= j < i - 1 ==> rest[j].id != rest[i - 1].id);
      controls
  }

  /** Every record's image element has a positive width once decoded. */
  ghost predicate ElementsWellSized(element: ImageRecord -> Masonry.ImageElement) {
    forall r :: Masonry.WellSized(element(r))
  }

  /** The records renderGallery shows: filtered, sorted, in display order. */
  function Shown(master: seq<ImageRecord>, p: Prefs): (shown: seq<ImageRecord>)
    ensures forall r :: r in shown <==> r in master && Filtering.Visible(r, Filtering.SelectedFandom(p.fandom), ControlsOf(p.boxes))
  {
    var visible := Filtering.GetFilteredData(master, p.fandom, ControlsOf(p.boxes));
    var shown := Sorting.GetSortedData(visible, p.sort);
    forall r ensures r in shown <==> r in visible {
      assert r in shown <==> r in multiset(shown);
      assert r in visible <==> r in multiset(visible);
    }
    forall r ensures r in visible <==> r in master && Filtering.Visible(r, Filtering.SelectedFandom(p.fandom), ControlsOf(p.boxes)) {
      Filtering.FilterKeepsVisible(master, Filtering.SelectedFandom(p.fandom), ControlsOf(p.boxes), r);
    }
    shown
  }

  /** The image elements of the shown records, in display order. */
  function ShownElements(shown: seq<ImageRecord>, element: ImageRecord -> Masonry.ImageElement): (images: seq<Masonry.ImageElement>)
    ensures |images| == |shown|
    ensures forall i :: 0 <= i < |shown| ==> images[i] == element(shown[i])
  {
    seq(|shown|, i requires 0 <= i < |shown| => element(shown[i]))
  }

  /** Column `c` of the page: the shown records placed in it, top to bottom. */
  function Displayed(shown: seq<ImageRecord>, numCols: nat, element: ImageRecord -> Masonry.ImageElement): (columns: seq<seq<ImageRecord>>)
    requires numCols >= 1
    requires forall r :: r in shown ==> Masonry.WellSized(element(r))
    ensures |columns| == numCols
  {
    var images := ShownElements(shown, element);
    var placed := Masonry.FinalColumns(numCols, images);
    seq(numCols, c requires 0 <= c < numCols =>
      seq(|placed[c]|, j requires 0 <= j < |placed[c]| => shown[placed[c][j]]))
  }

  /** Every shown record is on the page, in exactly one column, and nothing else is. */
  lemma DisplayedExactlyShown(shown: seq<ImageRecord>, numCols: nat, element: ImageRecord -> Masonry.ImageElement, k: nat)
    requires numCols >= 1 && k < |shown|
    requires forall r :: r in shown ==> Masonry.WellSized(element(r))
    ensures exists c, j :: 0 <= c < numCols && 0 <= j < |Displayed(shown, numCols, element)[c]| &&
              Displayed(shown, numCols, element)[c][j] == shown[k]
    ensures forall c, r :: 0 <= c < numCols && r in Displayed(shown, numCols, element)[c] ==> r in shown
  {
    var images := ShownElements(shown, element);
    var placed := Masonry.FinalColumns(numCols, images);
    var columns := Displayed(shown, numCols, element);
    Masonry.PlacedExactlyOnce(numCols, images, k);
    var c :| 0 <= c < numCols && k in placed[c];
    var j :| 0 <= j < |placed[c]| && placed[c][j] == k;
    assert columns[c][j] == shown[k];
    forall c, r | 0 <= c < numCols && r in columns[c]
      ensures r in shown
    {
      var j :| 0 <= j < |columns[c]| && columns[c][j] == r;
      assert r == shown[placed[c][j]];
    }
  }

  // ---------------------------------------------------------------------------
  // The page

  datatype Dropdown = FandomDropdown | SortDropdown

  /**
   * The page-level state of the gallery script: the checkboxes, the
   * select-all flag, both dropdown values, the master data, the fandom
   * menu and local storage. The browser's state at the moment of a call
   * (viewport width, image elements) is passed in.
   */
  class Page {
    var boxes: seq<Checkbox>
    var allSelected: bool
    var fandom: Option<string>
    var sort: Option<string>
    var master: seq<ImageRecord>
    var menu: seq<string>
    var storage: map<string, string>
    const codec: Codec

    /** The page as loaded, before the manifest arrives. */
    constructor (boxes: seq<Checkbox>, fandom: Option<string>, sort: Option<string>, storage: map<string, string>, codec: Codec)
      ensures this.boxes == boxes && this.fandom == fandom && this.sort == sort
      ensures this.storage == storage && this.codec == codec
      ensures !allSelected && master == [] && menu == []
    {
      this.boxes := boxes;
      this.fandom := fandom;
      this.sort := sort;
      this.storage := storage;
      this.codec := codec;
      allSelected := false;
      master := [];
      menu := [];
    }

    /** The state loadState reads and writes, as a value. */
    function Current(): Prefs
      reads this
    {
      Prefs(boxes, fandom, sort)
    }

    /** `allSelected` becomes whether every checkbox is checked. */
    method UpdateSelectAllState()
      modifies this
      ensures allSelected == AllChecked(boxes)
      ensures boxes == old(boxes) && fandom == old(fandom) && sort == old(sort)
      ensures master == old(master) && menu == old(menu) && storage == old(storage)
    {
      var checkedCount := CountChecked(boxes);
      CountCheckedAll(boxes);
      allSelected := |boxes| == checkedCount;
    }

    /** Write the checkbox states and both dropdown values to storage. */
    method SaveState()
      modifies this
      ensures storage == Saved(boxes, fandom, sort, old(storage), codec)
      ensures boxes == old(boxes) && fandom == old(fandom) && sort == old(sort)
      ensures master == old(master) && menu == old(menu) && allSelected == old(allSelected)
    {
      var filterStates: map<string, bool> := map[];
      assert boxes[..0] == [];
      for i := 0 to |boxes|
        invariant filterStates == FilterStates(boxes[..i])
      {
        assert boxes[..i + 1][..i] == boxes[..i];
        filterStates := filterStates[boxes[i].id := boxes[i].checked];
      }
      assert boxes[..|boxes|] == boxes;
      storage := storage[FiltersKey := codec.stringify(filterStates)];
      storage := storage[FandomKey := Stringified(fandom)];
      storage := storage[SortKey := Stringified(sort)];
    }

    /** Each saved tag's state goes to the checkboxes with that tag, one key at a time. */
    method ApplySaved(saved: map<string, bool>)
      modifies this
      ensures boxes == ApplyFilters(old(boxes), saved)
      ensures fandom == old(fandom) && sort == old(sort) && allSelected == old(allSelected)
      ensures master == old(master) && menu == old(menu) && storage == old(storage)
    {
      var keys := saved.Keys;
      ghost var start := boxes;
      while keys != {}
        invariant keys <= saved.Keys
        invariant SameElements(boxes, start)
        invariant forall i :: 0 <= i < |start| ==>
                    boxes[i].checked == (if start[i].tag.Some? && start[i].tag.value in saved.Keys - keys
                                         then saved[start[i].tag.value] else start[i].checked)
        invariant fandom == old(fandom) && sort == old(sort) && allSelected == old(allSelected)
        invariant master == old(master) && menu == old(menu) && storage == old(storage)
        decreases keys
      {
        var tag :| tag in keys;
        boxes := SetTag(boxes, tag, saved[tag]);
        keys := keys - {tag};
      }
      assert boxes == ApplyFilters(start, saved);
    }

    /**
     * Restore the saved preferences. `ok` is false where JSON.parse throws,
     * which leaves everything as it was.
     */
    method LoadState() returns (ok: bool)
      modifies this
      ensures ok <==> Loaded(old(Current()), storage, codec).Some?
      ensures ok ==> Current() == Loaded(old(Current()), storage, codec).value
      ensures !ok ==> Current() == old(Current())
      ensures master == old(master) && menu == old(menu) && storage == old(storage) && allSelected == old(allSelected)
    {
      if FiltersKey !in storage {
        boxes := SetTag(boxes, RpfTag, true);
      } else {
        var savedFilters := codec.parse(storage[FiltersKey]);
        if savedFilters.None? {
          return false;
        }
        ApplySaved(savedFilters.value);
      }
      if FandomKey in storage && storage[FandomKey] != "" {
        fandom := Some(storage[FandomKey]);
      }
      if SortKey in storage && storage[SortKey] != "" {
        sort := Some(storage[SortKey]);
      } else {
        sort := Some(Sorting.Newest);
      }
      return true;
    }

    /**
     * renderGallery: the shown records laid out into columns for this
     * width, and the select-all flag brought up to date.
     */
    method Render(width: int, element: ImageRecord -> Masonry.ImageElement) returns (columns: seq<seq<ImageRecord>>)
      requires ElementsWellSized(element)
      modifies this
      ensures columns == Displayed(Shown(master, Current()), Viewport.ColumnCount(width), element)
      ensures allSelected == AllChecked(boxes)
      ensures boxes == old(boxes) && fandom == old(fandom) && sort == old(sort)
      ensures master == old(master) && menu == old(menu) && storage == old(storage)
    {
      var filteredData := Filtering.GetFilteredData(master, fandom, ControlsOf(boxes));
      var sortedData := Sorting.GetSortedData(filteredData, sort);
      assert sortedData == Shown(master, Current());
      var numCols := Viewport.ColumnCount(width);
      var images := ShownElements(sortedData, element);
      var colHeights, placed := Masonry.PlaceAll(numCols, images);
      columns := seq(numCols, c requires 0 <= c < numCols =>
        seq(|placed[c]|, j requires 0 <= j < |placed[c]| => sortedData[placed[c][j]]));
      UpdateSelectAllState();
    }

    /** The manifest arrives: build the master data and the fandom menu, load preferences, render. */
    method OnManifest(manifest: seq<ManifestEntry>, leq: (string, string) -> bool, width: int,
                      element: ImageRecord -> Masonry.ImageElement) returns (ok: bool, columns: seq<seq<ImageRecord>>)
      requires FandomMenu.TotalOrder(leq) && ElementsWellSized(element)
      modifies this
      ensures master == NormalizeAll(manifest)
      ensures FandomMenu.SortedBy(menu, leq) && FandomMenu.NoDuplicates(menu)
      ensures FandomMenu.Elems(menu) == FandomMenu.FandomSet(master)
      ensures ok <==> Loaded(old(Current()), storage, codec).Some?
      ensures ok ==> Current() == Loaded(old(Current()), storage, codec).value
      ensures ok ==> columns == Displayed(Shown(master, Current()), Viewport.ColumnCount(width), element)
      ensures ok ==> allSelected == AllChecked(boxes)
      ensures !ok ==> Current() == old(Current()) && allSelected == old(allSelected)
      ensures storage == old(storage)
    {
      master := NormalizeAll(manifest);
      menu := FandomMenu.BuildMenu(master, leq);
      ok := LoadState();
      if ok {
        columns := Render(width, element);
      } else {
        columns := [];
      }
    }

    /**
     * A checkbox changed to its current state: its state goes to every
     * checkbox with the same non-empty tag; then render and save.
     */
    method OnCheckboxChange(k: nat, width: int, element: ImageRecord -> Masonry.ImageElement) returns (columns: seq<seq<ImageRecord>>)
      requires k < |boxes| && ElementsWellSized(element)
      modifies this
      ensures old(boxes[k].tag).Some? && old(boxes[k].tag).value != "" ==>
                boxes == SetTag(old(boxes), old(boxes[k].tag).value, old(boxes[k].checked))
      ensures old(boxes[k].tag).None? || old(boxes[k].tag).value == "" ==> boxes == old(boxes)
      ensures allSelected == AllChecked(boxes)
      ensures columns == Displayed(Shown(master, Current()), Viewport.ColumnCount(width), element)
      ensures storage == Saved(boxes, fandom, sort, old(storage), codec)
      ensures fandom == old(fandom) && sort == old(sort) && master == old(master) && menu == old(menu)
    {
      var tag := boxes[k].tag;
      var isChecked := boxes[k].checked;
      if tag.Some? && tag.value != "" {
        boxes := SetTag(boxes, tag.value, isChecked);
      }
      columns := Render(width, element);
      SaveState();
    }

    /** Select all / deselect all: flip the flag, set every checkbox to it, render and save. */
    method OnSelectAllClick(width: int, element: ImageRecord -> Masonry.ImageElement) returns (columns: seq<seq<ImageRecord>>)
      requires ElementsWellSized(element)
      modifies this
      ensures boxes == SetAll(old(boxes), !old(allSelected))
      ensures allSelected == AllChecked(boxes)
      ensures old(boxes) != [] ==> allSelected == !old(allSelected)
      ensures columns == Displayed(Shown(master, Current()), Viewport.ColumnCount(width), element)
      ensures storage == Saved(boxes, fandom, sort, old(storage), codec)
      ensures fandom == old(fandom) && sort == old(sort) && master == old(master) && menu == old(menu)
    {
      allSelected := !allSelected;
      boxes := SetAll(boxes, allSelected);
      SelectAllSetsEvery(old(boxes), !old(allSelected));
      columns := Render(width, element);
      SaveState();
    }

    /**
     * A dropdown option was chosen: record its `data-value`, render and
     * save. An option without one (None) leaves the dropdown's value as it
     * was, since setting an attribute to `undefined` writes nothing.
     */
    method OnDropdownChoose(d: Dropdown, value: Option<string>, width: int,
                            element: ImageRecord -> Masonry.ImageElement) returns (columns: seq<seq<ImageRecord>>)
      requires ElementsWellSized(element)
      modifies this
      ensures d == FandomDropdown && value.Some? ==> fandom == value
      ensures d == SortDropdown && value.Some? ==> sort == value
      ensures d == SortDropdown || value.None? ==> fandom == old(fandom)
      ensures d == FandomDropdown || value.None? ==> sort == old(sort)
      ensures allSelected == AllChecked(boxes)
      ensures columns == Displayed(Shown(master, Current()), Viewport.ColumnCount(width), element)
      ensures storage == Saved(boxes, fandom, sort, old(storage), codec)
      ensures boxes == old(boxes) && master == old(master) && menu == old(menu)
    {
      if value.Some? {
        if d == FandomDropdown {
          fandom := value;
        } else {
          sort := value;
        }
      }
      columns := Render(width, element);
      SaveState();
    }
  }
}
