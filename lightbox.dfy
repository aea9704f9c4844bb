/**
 * The lightbox: clicking a gallery image opens an overlay with one or two
 * previews. Opening resets both preview slots, starts one load (two when
 * the record has a second preview) and reveals the overlay once every
 * started load has settled; closing hides it and clears both sources.
 * Load completion is an event (`OnSettled`); whether an image is already
 * complete when its source is set is a parameter of `Open`.
 */
module Lightbox {
  import opened Wrappers

  /** The border colour a slot is reset to. */
  const Background: string := "var(--background)"
  const OverlayId: string := "image-overlay"
  const CloseId: string := "close-overlay"

  /** One preview image: its source, the link a click opens, its cached colour and its frame's border. */
  datatype Slot = Slot(src: string, prettyLink: Option<string>, dominantColor: Option<string>, border: string)

  datatype SlotId = First | Second

  /** What a click on a preview opens: its pretty link, or its source when that is missing or empty. */
  function LinkToOpen(s: Slot): (url: string)
    ensures s.prettyLink.Some? && s.prettyLink.value != "" ==> url == s.prettyLink.value
    ensures s.prettyLink.None? || s.prettyLink.value == "" ==> url == s.src
  {
    if s.prettyLink.Some? && s.prettyLink.value != "" then s.prettyLink.value else s.src
  }

  class Overlay {
    var shown: bool
    var slot1: Slot
    var slot2: Slot
    /** Whether the second preview's wrapper is displayed. */
    var secondShown: bool
    /** A load started by the last open that has not settled yet. */
    var pending1: bool
    var pending2: bool

    /** The second slot is only loaded, and only holds a source, while it is displayed. */
    predicate Valid()
      reads this
    {
      !secondShown ==> !pending2 && slot2.src == ""
    }

    constructor ()
      ensures Valid()
      ensures !shown && !pending1 && !pending2 && slot1.src == "" && slot2.src == ""
    {
      shown := false;
      slot1 := Slot("", None, None, Background);
      slot2 := Slot("", None, None, Background);
      secondShown := true;
      pending1 := false;
      pending2 := false;
    }

    /**
     * A click on a gallery image with source `src1` (None until the lazy
     * loader has set it), pretty link `pretty1` (every gallery image carries
     * one) and second preview `src2`/`pretty2` ("" when there is none).
     * `complete1`/`complete2`: the image is complete as soon as its source
     * is set, so its load settles at once.
     */
    method Open(src1: Option<string>, pretty1: string, src2: string, pretty2: string,
                complete1: bool, complete2: bool)
      requires Valid()
      modifies this
      ensures Valid()
      ensures src1.None? || src1.value == "" ==>
                shown == old(shown) && slot1 == old(slot1) && slot2 == old(slot2) && secondShown == old(secondShown) &&
                pending1 == old(pending1) && pending2 == old(pending2)
      ensures src1.Some? && src1.value != "" ==>
                && slot1 == Slot(src1.value, Some(pretty1), None, Background)
                && slot2.dominantColor == None && slot2.border == Background
                && secondShown == (src2 != "")
                && (src2 != "" ==> slot2.src == src2 && slot2.prettyLink == Some(pretty2))
                && (src2 == "" ==> slot2.src == "" && slot2.prettyLink == old(slot2.prettyLink))
                && pending1 == !complete1
                && pending2 == (src2 != "" && !complete2)
                && shown == (old(shown) || (!pending1 && !pending2))
    {
      if src1.None? || src1.value == "" {
        return;
      }
      // Reset both slots and hide the second one.
      slot1 := Slot("", slot1.prettyLink, None, Background);
      slot2 := Slot("", slot2.prettyLink, None, Background);
      secondShown := false;
      pending2 := false;
      // First load.
      slot1 := slot1.(src := src1.value, prettyLink := Some(pretty1));
      pending1 := !complete1;
      // Second load, when there is a second preview.
      if src2 != "" {
        secondShown := true;
        slot2 := slot2.(src := src2, prettyLink := Some(pretty2));
        pending2 := !complete2;
      }
      // Promise.all: every started load has already settled.
      if !pending1 && !pending2 {
        shown := true;
      }
    }

    /** A `load` or `error` event on a slot: the last pending load to settle reveals the overlay. */
    method OnSettled(which: SlotId)
      requires Valid()
      modifies this
      ensures Valid()
      ensures pending1 == (old(pending1) && which != First)
      ensures pending2 == (old(pending2) && which != Second)
      ensures shown == (old(shown) || ((old(pending1) || old(pending2)) && !pending1 && !pending2))
      ensures slot1 == old(slot1) && slot2 == old(slot2) && secondShown == old(secondShown)
    {
      var wasPending := pending1 || pending2;
      if which == First {
        pending1 := false;
      } else {
        pending2 := false;
      }
      if wasPending && !pending1 && !pending2 {
        shown := true;
      }
    }

    /** A click on the overlay: on the backdrop or the close button it hides and clears both sources. */
    method OnOverlayClick(targetId: string)
      requires Valid()
      modifies this
      ensures Valid()
      ensures targetId == OverlayId || targetId == CloseId ==>
                !shown && slot1 == old(slot1).(src := "") && slot2 == old(slot2).(src := "")
      ensures targetId != OverlayId && targetId != CloseId ==> shown == old(shown) && slot1 == old(slot1) && slot2 == old(slot2)
      ensures secondShown == old(secondShown) && pending1 == old(pending1) && pending2 == old(pending2)
    {
      if targetId == OverlayId || targetId == CloseId {
        shown := false;
        slot1 := slot1.(src := "");
        slot2 := slot2.(src := "");
      }
    }

    /** A click on a preview: the address `window.open` receives. */
    method OnPreviewClick(which: SlotId) returns (url: string)
      ensures url == LinkToOpen(if which == First then slot1 else slot2)
    {
      url := LinkToOpen(if which == First then slot1 else slot2);
    }
  }
}
