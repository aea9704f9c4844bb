/**
 * The manifest records and the normalisation step that builds
 * `masterGalleryData` from the fetched manifest.
 */
module Records {
  import opened Wrappers
  import Dates

  /** A manifest entry as fetched; optional fields may be missing. */
  datatype ManifestEntry = ManifestEntry(
    filename: string,
    preview2: Option<string>,
    fandom: Option<seq<string>>,
    tags: Option<seq<string>>,
    rating: Option<string>,
    date: Option<string>)

  /**
   * A record of the master data: the entry, its parsed date as a day count
   * (the sort key) and the identity of its display element, which is the
   * entry's position in the manifest.
   */
  datatype ImageRecord = ImageRecord(entry: ManifestEntry, parsedDate: int, id: nat)

  /** The normalisation of one manifest entry at position `id`. */
  function Normalize(e: ManifestEntry, id: nat): (r: ImageRecord)
    ensures r.entry == e && r.id == id
    ensures e.date == None ==> r.parsedDate == 0
    ensures e.date.Some? && !Dates.WellFormedDate(e.date.value) ==> r.parsedDate == 0
    ensures e.date.Some? && Dates.WellFormedDate(e.date.value) ==> Dates.ParseDate(e.date) == Dates.TimeValue(r.parsedDate)
  {
    ImageRecord(e, Dates.ParseDateKey(e.date), id)
  }

  /** `gallery.map(...)`: one record per entry, in manifest order, identities 0..n-1. */
  function NormalizeAll(manifest: seq<ManifestEntry>): (master: seq<ImageRecord>)
    ensures |master| == |manifest|
    ensures forall i :: 0 <= i < |master| ==> master[i] == Normalize(manifest[i], i)
  {
    seq(|manifest|, i requires 0 <= i < |manifest| => Normalize(manifest[i], i))
  }

  /** Each display element is bound to exactly one record: identities are distinct. */
  lemma NormalizeAllIdsDistinct(manifest: seq<ManifestEntry>)
    ensures forall i, j :: 0 <= i < j < |manifest| ==> NormalizeAll(manifest)[i].id != NormalizeAll(manifest)[j].id
  {}
}
