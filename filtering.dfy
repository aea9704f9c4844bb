/**
 * The filter half of the filter/sort engine: which records of the master
 * data are visible for the selected fandom and the state of the tag
 * checkboxes.
 */
module Filtering {
  import opened Wrappers
  import opened Records

  /**
   * The page's elements looked up by id: `controls[id]` is whether the
   * element with that id is checked; an id with no element is absent.
   */
  type Controls = map<string, bool>

  /** The fandom sentinel meaning "no fandom restriction". */
  const AllFandoms: string := "all"

  /** The selected fandom: the dropdown's value, or "all" when it is absent or empty. */
  function SelectedFandom(dropdownValue: Option<string>): (selected: string)
    ensures selected != ""
    ensures dropdownValue == None ==> selected == AllFandoms
    ensures dropdownValue == Some("") ==> selected == AllFandoms
    ensures dropdownValue.Some? && dropdownValue.value != "" ==> selected == dropdownValue.value
  {
    if dropdownValue.Some? && dropdownValue.value != "" then dropdownValue.value else AllFandoms
  }

  // ---------------------------------------------------------------------------
  // String.prototype.trim

  /** The white space `trim` removes (ASCII, no-break space and byte order mark). */
  predicate IsSpace(c: char) {
    c == ' ' || c == '\t' || c == '\n' || c == '\r' || c == '\U{000B}' || c == '\U{000C}' ||
    c == '\U{00A0}' || c == '\U{FEFF}'
  }

  function TrimStart(s: string): (t: string)
    ensures |t| <= |s| && t == s[|s| - |t|..]
    ensures t == [] || !IsSpace(t[0])
    ensures forall i :: 0 <= i < |s| - |t| ==> IsSpace(s[i])
  {
    if s != [] && IsSpace(s[0]) then TrimStart(s[1..]) else s
  }

  function TrimEnd(s: string): (t: string)
    ensures |t| <= |s| && t == s[..|t|]
    ensures t == [] || !IsSpace(t[|t| - 1])
    ensures forall i :: |t| <= i < |s| ==> IsSpace(s[i])
  {
    if s != [] && IsSpace(s[|s| - 1]) then TrimEnd(s[..|s| - 1]) else s
  }

  /** `s.trim()`: `s` without its leading and trailing white space. */
  function Trim(s: string): (t: string)
    ensures t == [] || (!IsSpace(t[0]) && !IsSpace(t[|t| - 1]))
  {
    TrimEnd(TrimStart(s))
  }

  // ---------------------------------------------------------------------------
  // The filter predicate

  /** The record's fandom list, empty when the field is missing. */
  function Fandoms(r: ImageRecord): seq<string> { r.entry.fandom.GetOr([]) }

  /** The record's tag list, empty when the field is missing. */
  function Tags(r: ImageRecord): seq<string> { r.entry.tags.GetOr([]) }

  predicate FandomMatch(r: ImageRecord, selected: string) {
    selected == AllFandoms || selected in Fandoms(r)
  }

  /** A tag excludes a record only when an element with its trimmed id exists and is unchecked. */
  predicate TagBlocks(tag: string, controls: Controls) {
    Trim(tag) in controls && !controls[Trim(tag)]
  }

  predicate TagsMatch(r: ImageRecord, controls: Controls) {
    forall i :: 0 <= i < |Tags(r)| ==> !TagBlocks(Tags(r)[i], controls)
  }

  /** The filter predicate of getFilteredData. */
  predicate Visible(r: ImageRecord, selected: string, controls: Controls) {
    FandomMatch(r, selected) && TagsMatch(r, controls)
  }

  /** The tag loop: stops at the first tag whose control exists and is unchecked. */
  method CheckTags(tags: seq<string>, controls: Controls) returns (pass: bool)
    ensures pass <==> forall i :: 0 <= i < |tags| ==> !TagBlocks(tags[i], controls)
  {
    for i := 0 to |tags|
      invariant forall k :: 0 <= k < i ==> !TagBlocks(tags[k], controls)
    {
      var id := Trim(tags[i]);
      if id in controls && !controls[id] {
        return false;
      }
    }
    return true;
  }

  /** The callback passed to `filter`, statement by statement. */
  method IsVisible(image: ImageRecord, selected: string, controls: Controls) returns (keep: bool)
    ensures keep <==> Visible(image, selected, controls)
  {
    var imageFandoms := image.entry.fandom.GetOr([]);
    var fandomMatch := selected == AllFandoms || selected in imageFandoms;
    if !fandomMatch {
      return false;
    }
    if image.entry.tags.Some? && |image.entry.tags.value| > 0 {
      keep := CheckTags(image.entry.tags.value, controls);
      assert Tags(image) == image.entry.tags.value;
      return;
    }
    assert Tags(image) == [];
    return true;
  }

  // ---------------------------------------------------------------------------
  // getFilteredData

  /** `data.filter(Visible)`. */
  function Filter(data: seq<ImageRecord>, selected: string, controls: Controls): (out: seq<ImageRecord>)
    ensures |out| <= |data|
    ensures forall x :: x in out ==> x in data && Visible(x, selected, controls)
  {
    if data == [] then []
    else if Visible(data[0], selected, controls) then [data[0]] + Filter(data[1..], selected, controls)
    else Filter(data[1..], selected, controls)
  }

  /** The visible records of the master data for the dropdown value and the controls. */
  function GetFilteredData(master: seq<ImageRecord>, fandomDropdown: Option<string>, controls: Controls): (visible: seq<ImageRecord>)
    ensures IsSubsequence(visible, master)
    ensures forall r :: r in visible <==> r in master && Visible(r, SelectedFandom(fandomDropdown), controls)
  {
    var selected := SelectedFandom(fandomDropdown);
    FilterIsSubsequence(master, selected, controls);
    forall r ensures r in Filter(master, selected, controls) <==> r in master && Visible(r, selected, controls) {
      FilterKeepsVisible(master, selected, controls, r);
    }
    Filter(master, selected, controls)
  }

  /** `xs` is `ys` with some elements left out, the rest in their original order. */
  predicate IsSubsequence<T(==)>(xs: seq<T>, ys: seq<T>)
    decreases |ys|
  {
    xs == [] ||
    (ys != [] && ((xs[0] == ys[0] && IsSubsequence(xs[1..], ys[1..])) || IsSubsequence(xs, ys[1..])))
  }

  /** The filtered data keeps the master data's relative order. */
  lemma {:induction false} FilterIsSubsequence(data: seq<ImageRecord>, selected: string, controls: Controls)
    ensures IsSubsequence(Filter(data, selected, controls), data)
  {
    if data != [] {
      FilterIsSubsequence(data[1..], selected, controls);
      var out := Filter(data, selected, controls);
      if Visible(data[0], selected, controls) {
        assert out[0] == data[0] && out[1..] == Filter(data[1..], selected, controls);
      }
    }
  }

  /** Exactly the visible records of the master data are kept. */
  lemma {:induction false} FilterKeepsVisible(data: seq<ImageRecord>, selected: string, controls: Controls, x: ImageRecord)
    ensures x in Filter(data, selected, controls) <==> x in data && Visible(x, selected, controls)
  {
    if data != [] {
      FilterKeepsVisible(data[1..], selected, controls, x);
      assert data == [data[0]] + data[1..];
    }
  }

  /** Filtering again with the same state changes nothing. */
  lemma {:induction false} FilterIdempotent(data: seq<ImageRecord>, selected: string, controls: Controls)
    ensures Filter(Filter(data, selected, controls), selected, controls) == Filter(data, selected, controls)
  {
    if data != [] {
      FilterIdempotent(data[1..], selected, controls);
    }
  }

  /** With every record visible, nothing is filtered out. */
  lemma {:induction false} FilterAllVisible(data: seq<ImageRecord>, selected: string, controls: Controls)
    requires forall i :: 0 <= i < |data| ==> Visible(data[i], selected, controls)
    ensures Filter(data, selected, controls) == data
  {
    if data != [] {
      FilterAllVisible(data[1..], selected, controls);
      assert data == [data[0]] + data[1..];
    }
  }

  /** Under "all" every record passes the fandom test; a record without fandoms passes no other. */
  lemma FandomSelection(r: ImageRecord, selected: string)
    ensures selected == AllFandoms ==> FandomMatch(r, selected)
    ensures selected != AllFandoms && r.entry.fandom == None ==> !FandomMatch(r, selected)
  {}

  /** Tags fail open: a tag whose trimmed id has no control never excludes a record. */
  lemma MissingControlFailsOpen(r: ImageRecord, controls: Controls)
    requires forall i :: 0 <= i < |Tags(r)| ==> Trim(Tags(r)[i]) !in controls
    ensures TagsMatch(r, controls)
  {}

  /** Number of records whose fandom list contains `f`. */
  function CountFandom(data: seq<ImageRecord>, f: string): nat {
    if data == [] then 0 else (if f in Fandoms(data[0]) then 1 else 0) + CountFandom(data[1..], f)
  }

  /** With no tags in play, selecting a fandom shows as many records as list it. */
  lemma {:induction false} FilterCountsFandom(data: seq<ImageRecord>, f: string, controls: Controls)
    requires f != AllFandoms
    requires forall i :: 0 <= i < |data| ==> TagsMatch(data[i], controls)
    ensures |Filter(data, f, controls)| == CountFandom(data, f)
  {
    if data != [] {
      FilterCountsFandom(data[1..], f, controls);
    }
  }

  /** Five records, three of fandom A and two of fandom B: "A" shows 3, "all" shows 5. */
  lemma FandomScenario(a: ImageRecord, b: ImageRecord, c: ImageRecord, d: ImageRecord, e: ImageRecord, controls: Controls)
    requires Fandoms(a) == ["fandomA"] && Fandoms(b) == ["fandomA"] && Fandoms(c) == ["fandomA"]
    requires Fandoms(d) == ["fandomB"] && Fandoms(e) == ["fandomB"]
    requires Tags(a) == [] && Tags(b) == [] && Tags(c) == [] && Tags(d) == [] && Tags(e) == []
    ensures |Filter([a, b, c, d, e], "fandomA", controls)| == 3
    ensures Filter([a, b, c, d, e], AllFandoms, controls) == [a, b, c, d, e]
  {
    var data := [a, b, c, d, e];
    assert forall i :: 0 <= i < |data| ==> Tags(data[i]) == [];
    assert forall i :: 0 <= i < |data| ==> TagsMatch(data[i], controls);
    FilterCountsFandom(data, "fandomA", controls);
    assert data[1..] == [b, c, d, e] && data[2..] == [c, d, e] && data[3..] == [d, e] && data[4..] == [e];
    assert "fandomA" !in ["fandomB"];
    assert CountFandom([e], "fandomA") == 0;
    assert CountFandom([d, e], "fandomA") == 0;
    assert CountFandom([c, d, e], "fandomA") == 1;
    assert CountFandom([b, c, d, e], "fandomA") == 2;
    FilterAllVisible(data, AllFandoms, controls);
  }
}
