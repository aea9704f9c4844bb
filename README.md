# Gallery engine — a verified Dafny model

This project models the gallery page script `public/gallery/gallery.js`. The
script loads a manifest of artwork records. It turns each record's date into
a sort key and filters the records by the selected fandom and the tag
checkboxes. It sorts them newest or oldest first and lays them out in a
masonry of one to four columns, each item going into the lowest column. It
also builds the fandom dropdown menu, keeps the select-all button and the
checkboxes in step, saves and restores preferences in local storage, and
drives a lightbox that previews one or two images.

Modules, one file each:

- `Dates` (`dates.dfy`) is `parseDate`. It covers the JavaScript semantics the
  parser relies on: `split('/')`, string-to-number conversion, and the Date
  constructor with its two-digit years and month carry. A Date is seen
  through its time value in whole days since 1970-01-01.
- `Viewport` (`viewport.dfy`) is `getColumnCount`.
- `Records` (`records.dfy`) holds the manifest entries and the `gallery.map`
  normalisation.
- `Filtering` (`filtering.dfy`) is `getFilteredData`. Checkbox state is a map
  from element id to checked; an id with no element is absent from it.
- `Sorting` (`sorting.dfy`) is `getSortedData`. Sorting is stable, as section
  22.1.3.27 of ECMA-262 (10th edition) requires of `Array.prototype.sort`,
  and is modelled as stable insertion sort on a copy.
- `Masonry` (`masonry.dfy`) is the placement loop of `renderGallery`. Methods
  over an `array<real>` of column heights are proved against the functional
  specification `Greedy`.
- `FandomMenu` (`fandoms.dfy`) builds the fandom `Set` with a loop, then sorts
  it. `localeCompare` is an abstract total order passed as a parameter.
- `Session` (`session.dfy`) is the page state, as class `Page`: checkboxes,
  `allSelected`, the dropdown values, the master data, the menu and local
  storage. It holds the handlers, `saveState`/`loadState` (specified by the
  functions `Saved` and `Loaded`) and `renderGallery`. `renderGallery` ties
  filter, sort, column count and placement together.
- `Lightbox` (`lightbox.dfy`) is the preview overlay, as class `Overlay`: open,
  load settled, close, and preview click.
- `Wrappers` (`wrappers.dfy`) is an `Option` type.

The model follows the code as written. The one place where the code does
not do what it evidently means to do is listed under "Findings". A
three-part date with a non-numeric part becomes an Invalid Date, although
every other unreadable date falls back to the epoch. The records use the
corrected key.

## Model

| member | source | states |
|---|---|---|
| `Dates.ToNumber` | public/gallery/gallery.js:77 | the empty string converts to 0; a string converts to a number exactly when it is all ASCII digits, and otherwise to NaN |
| `Dates.Split` | public/gallery/gallery.js:75 | `split` always yields at least one part |
| `Dates.JoinSplit` | public/gallery/gallery.js:75 | joining the parts of `split('/')` with '/' gives the original string back |
| `Dates.SplitShape` | public/gallery/gallery.js:75-76 | there is one more part than there are separators, and no part contains the separator |
| `Dates.MakeFullYear` | public/gallery/gallery.js:73 | years 0..99 given to the Date constructor mean 1900..1999; any other year is kept |
| `Dates.MonthStart` | public/gallery/gallery.js:73-78 | the day count starts at 1 January 1970 (day 0); `FebruaryLength`, `MonthLength` and `DecemberLength` fix the distance between months |
| `Dates.FebruaryLength` | public/gallery/gallery.js:73-78 | February lasts 29 days in a Gregorian leap year (divisible by 4, and by 400 if a century) and 28 days otherwise |
| `Dates.MonthLength` | public/gallery/gallery.js:73-78 | January, March, May, July, August and October last 31 days; April, June, September and November last 30 |
| `Dates.DecemberLength` | public/gallery/gallery.js:73-78 | December lasts 31 days and runs into January of the next year |
| `Dates.MakeDayCarry` | public/gallery/gallery.js:73-78 | a month index in 0..11 counts from that month's first day; index 12 is January of the next year and −1 December of the previous year; each further day of the month adds one day |
| `Dates.NewDate` | public/gallery/gallery.js:73 | the constructed Date is invalid exactly when one of its three arguments is NaN |
| `Dates.ParseDate` | public/gallery/gallery.js:71-81 | an absent or empty date gives the epoch, a four-digit year never gives an Invalid Date, and an Invalid Date only comes from a string of three `/`-parts; `ParseDateFallback`, `ParseYear`, `ParseThreeParts` and `ParseDateInvalid` give each branch in full |
| `Dates.EpochIsFirstOf1970` | public/gallery/gallery.js:72 | the fallback `new Date(0)` is 1 January 1970 under the model's day count |
| `Dates.JanuaryFirstMonotone` | public/gallery/gallery.js:73 | a later year always gets a strictly later January 1 |
| `Dates.ParseDateFallback` | public/gallery/gallery.js:71-80 | an absent or empty date, or one that is neither four digits nor three `/`-parts, gives the epoch |
| `Dates.ParseYear` | public/gallery/gallery.js:73-74 | a four-digit year gives January 1 of that year, with 0000..0099 read as 1900..1999 |
| `Dates.YearRoundTrip` | public/gallery/gallery.js:73-74 | formatting a year in 1000..9999 as four digits and parsing it gives that year's January 1 |
| `Dates.LaterYearSortsLater` | public/gallery/gallery.js:73-74 | "2021" gets a larger sort key than "2020" |
| `Dates.CalendarRoundTrip` | public/gallery/gallery.js:75-78 | `MM/DD/YYYY` gives the day (year = part 3, month = part 1 − 1, day = part 2) |
| `Dates.ParseThreeParts` | public/gallery/gallery.js:75-78 | any non-year string that splits into exactly three parts goes to the Date constructor with those parts reordered |
| `Dates.ParseDateInvalid` | public/gallery/gallery.js:71-80 | the parse yields an Invalid Date exactly when the string splits into three parts, one of which is not numeric |
| `Dates.NonNumericDateIsInvalid` | public/gallery/gallery.js:75-78 | as written, "ab/01/2020" is not a well-formed date, yet it parses to an Invalid Date rather than the epoch |
| `Dates.ParseDateKey` | public/gallery/gallery.js:71-80 | the sort key is 0 for an absent or unreadable date; for a well-formed date it is the time value the parser gives |
| `Viewport.ColumnCount` | public/gallery/gallery.js:83-89 | always 1..4: below 768 gives 1, below 1024 gives 2, below 1280 gives 3, otherwise 4 |
| `Viewport.ColumnCountMonotone` | public/gallery/gallery.js:83-89 | a wider viewport never gets fewer columns |
| `Records.Normalize` | public/gallery/gallery.js:262-263 | the record keeps its entry and identity; its sort key is 0 without a date or with an unreadable one, and otherwise is the parsed date |
| `Records.NormalizeAll` | public/gallery/gallery.js:262-291 | one record per manifest entry, in manifest order, record `i` normalised from entry `i` |
| `Records.NormalizeAllIdsDistinct` | public/gallery/gallery.js:288 | every record is bound to a display element of its own |
| `Filtering.SelectedFandom` | public/gallery/gallery.js:92 | the selection is never empty: an absent or empty dropdown value means "all", any other value is used as is |
| `Filtering.GetFilteredData` | public/gallery/gallery.js:91-109 | the result keeps the master data's order, and a record is in it exactly when it is in the master data and visible for the dropdown's fandom (or "all") and the checkboxes |
| `Filtering.TrimStart` | public/gallery/gallery.js:100 | only white space is removed from the front, and what remains does not start with white space |
| `Filtering.TrimEnd` | public/gallery/gallery.js:100 | only white space is removed from the back, and what remains does not end with white space |
| `Filtering.Trim` | public/gallery/gallery.js:100 | the trimmed tag neither starts nor ends with white space |
| `Filtering.CheckTags` | public/gallery/gallery.js:99-105 | the tag loop passes exactly when no tag's trimmed id names an existing, unchecked checkbox |
| `Filtering.IsVisible` | public/gallery/gallery.js:93-107 | the filter callback keeps a record exactly when it passes the fandom test and the tag test |
| `Filtering.Filter` | public/gallery/gallery.js:93-108 | the result is no longer than the input, and everything in it is a visible record of the input |
| `Filtering.FilterIsSubsequence` | public/gallery/gallery.js:93-108 | the filtered data is a subsequence of the master data, so relative order is kept |
| `Filtering.FilterKeepsVisible` | public/gallery/gallery.js:93-108 | a record is in the result exactly when it is in the master data and visible |
| `Filtering.FilterIdempotent` | public/gallery/gallery.js:91-109 | filtering the filtered data again with the same state changes nothing |
| `Filtering.FilterAllVisible` | public/gallery/gallery.js:93-108 | when every record is visible, the result is the master data itself |
| `Filtering.FandomSelection` | public/gallery/gallery.js:94-96 | under "all" every record passes the fandom test; under any other selection a record without a fandom list fails it |
| `Filtering.MissingControlFailsOpen` | public/gallery/gallery.js:100-103 | tags whose ids name no checkbox never exclude a record |
| `Filtering.FilterCountsFandom` | public/gallery/gallery.js:94-96 | with no tag blocking, selecting a fandom shows as many records as list that fandom |
| `Filtering.FandomScenario` | public/gallery/gallery.js:91-109 | of five records, three of fandom A, selecting A shows 3 and "all" shows all 5 in order |
| `Sorting.SortOrder` | public/gallery/gallery.js:112 | the sort key is never empty: an absent or empty dropdown value means "newest" |
| `Sorting.GetSortedData` | public/gallery/gallery.js:111-121 | the result is a stable permutation of the data; it is sorted newest first for an absent, empty or "newest" dropdown value, oldest first for "oldest", and left in input order for any other value |
| `Sorting.Insert` | public/gallery/gallery.js:115-117 | inserting into a sorted list keeps it sorted and adds exactly that one record |
| `Sorting.InsertionSort` | public/gallery/gallery.js:115-117 | the result is sorted by date in the requested direction and is a permutation of the input |
| `Sorting.InsertionSortStableAll` | public/gallery/gallery.js:115-117 | the sort is stable: records with equal dates keep their input order |
| `Sorting.SortedStableUnique` | public/gallery/gallery.js:115-117 | two sorted, stable arrangements of the same data are equal, so the stable sort is determined |
| `Sorting.SortBy` | public/gallery/gallery.js:111-121 | a permutation that keeps ties in order; non-increasing dates for "newest", non-decreasing for "oldest", the input order for any other key |
| `Sorting.SortByIsTheStableSort` | public/gallery/gallery.js:113-118 | any sorted, stable arrangement of the data is exactly what getSortedData returns |
| `Sorting.NewestReversesOldest` | public/gallery/gallery.js:114-118 | when no two dates are equal, "newest" is the reverse of "oldest" |
| `Sorting.YearScenario` | public/gallery/gallery.js:114-116 | a 2020 record and a 2021 record sort 2021 first under "newest" and 2020 first under "oldest" |
| `Masonry.EstimatedAspectRatio` | public/gallery/gallery.js:181-184 | the ratio is positive; it is 1 unless the image is complete with a positive natural height, and then it is height over width |
| `Masonry.Ratios` | public/gallery/gallery.js:181-184 | one ratio per item, each the item's estimated aspect ratio |
| `Masonry.ArgMin` | public/gallery/gallery.js:169-177 | the chosen column has the least height, and every column before it is strictly higher, so ties go to the lowest index |
| `Masonry.Place` | public/gallery/gallery.js:169-187 | one placement keeps every column count, records one more item and leaves the earlier items' columns as they were |
| `Masonry.PlaceLowest` | public/gallery/gallery.js:169-187 | the new item goes to a column of least height, ties going to the lowest index, and that column alone grows, by the item's ratio |
| `Masonry.Greedy` | public/gallery/gallery.js:162-187 | the layout has one height per column and one column, in range, per item |
| `Masonry.MinColumn` | public/gallery/gallery.js:169-177 | the inner loop returns the first column of least height |
| `Masonry.PlaceItem` | public/gallery/gallery.js:169-187 | the item goes to the first lowest column, and only that column's height grows, by exactly the ratio |
| `Masonry.PlaceAll` | public/gallery/gallery.js:134-187 | from zeroed heights, the loop leaves the heights and columns of the greedy layout of all items in order |
| `Masonry.GreedyPrefix` | public/gallery/gallery.js:162-187 | placing more items never moves items already placed |
| `Masonry.GreedyPlacement` | public/gallery/gallery.js:169-187 | item k goes to the first column of least height among the heights before it, and that column alone grows by its ratio |
| `Masonry.GreedySum` | public/gallery/gallery.js:134-187 | the column heights add up to the sum of the ratios placed |
| `Masonry.GreedyBalance` | public/gallery/gallery.js:134-187 | no height is negative, and no two columns differ by more than the largest ratio placed |
| `Masonry.ColumnItemsMembership` | public/gallery/gallery.js:179-186 | a column holds an item exactly when the item was placed in that column |
| `Masonry.ColumnItemsIncreasing` | public/gallery/gallery.js:179-186 | items appear within a column in input order, each once |
| `Masonry.PlacedExactlyOnce` | public/gallery/gallery.js:162-192 | every item lands in exactly one column, and each column lists its items in input order |
| `FandomMenu.FandomSet` | public/gallery/gallery.js:293-298 | a fandom is in the set exactly when some record lists it |
| `FandomMenu.Add` | public/gallery/gallery.js:296 | `set.add` adds exactly that element, keeps the set duplicate-free and keeps the earlier elements in place |
| `FandomMenu.AddAll` | public/gallery/gallery.js:296 | adding a record's list adds exactly its elements, stays duplicate-free and only appends |
| `FandomMenu.Collected` | public/gallery/gallery.js:293-298 | after the loop the set is duplicate-free and holds exactly the fandoms of the records |
| `FandomMenu.CollectedPrefix` | public/gallery/gallery.js:293-298 | later records only append, so each fandom keeps the place of its first sighting |
| `FandomMenu.CollectFandoms` | public/gallery/gallery.js:293-298 | the nested loops build the same insertion-ordered set as the specification |
| `FandomMenu.InsertBy` | public/gallery/gallery.js:299 | inserting into a sorted list keeps it sorted and adds exactly that string |
| `FandomMenu.SortByOrder` | public/gallery/gallery.js:299 | the sorted copy is sorted by the order and is a permutation of the set's array |
| `FandomMenu.MultisetNoDuplicates` | public/gallery/gallery.js:299 | a permutation of a duplicate-free list is duplicate-free and has the same elements |
| `FandomMenu.SortedUnique` | public/gallery/gallery.js:299 | two sorted, duplicate-free lists of the same strings are equal |
| `FandomMenu.BuildMenu` | public/gallery/gallery.js:293-299 | the menu is sorted, has no duplicates and lists exactly the fandoms of the records |
| `FandomMenu.MenuDeterminedBySet` | public/gallery/gallery.js:293-299 | the menu depends only on which fandoms occur, not on the order of the records |
| `Session.CountCheckedAll` | public/gallery/gallery.js:205 | comparing the number of checkboxes with the number checked is the same as every checkbox being checked |
| `Session.SelectAllSetsEvery` | public/gallery/gallery.js:326-327 | select-all sets every checkbox to the new flag and nothing else; with at least one checkbox, all are checked exactly when the flag is true |
| `Session.ChangeKeepsSynced` | public/gallery/gallery.js:312-319 | after a change is copied to every checkbox with the same non-empty tag, checkboxes sharing a tag agree again and the changed one keeps its state |
| `Session.Stringified` | public/gallery/gallery.js:216-217 | a present dropdown value is stored as is |
| `Session.FilterStates` | public/gallery/gallery.js:211-214 | the saved filter object has a key exactly for each checkbox id |
| `Session.FilterStatesAgree` | public/gallery/gallery.js:211-214 | when all checkboxes with an id agree, that shared state is what is saved under the id |
| `Session.Saved` | public/gallery/gallery.js:210-218 | saving writes the three preference keys and leaves every other storage key as it was |
| `Session.ApplyFilters` | public/gallery/gallery.js:228-232 | a checkbox whose tag has a saved state takes that state; the others keep theirs; ids and tags do not change |
| `Session.Loaded` | public/gallery/gallery.js:220-242 | loading fails exactly when the saved filters do not parse; with no saved filters every "rpf" checkbox is checked and every other checkbox keeps its state; with no saved sort the sort is "newest"; with no saved fandom the fandom is unchanged |
| `Session.LoadKeepsSynced` | public/gallery/gallery.js:220-242 | loading never leaves two checkboxes with the same tag in different states |
| `Session.SaveLoadRoundTrip` | public/gallery/gallery.js:210-242 | if JSON parsing gives back what was stringified, every checkbox's id is its tag, checkboxes sharing an id are in the same state and both dropdown values are non-empty, loading what was saved restores checkboxes, fandom and sort on a page with the same checkboxes |
| `Session.ControlsOf` | public/gallery/gallery.js:100-101 | an id names a checkbox exactly when some checkbox has it, and its state is that of the first checkbox in document order with that id |
| `Session.Shown` | public/gallery/gallery.js:126-127 | the records rendered are exactly the master records visible under the current dropdowns and checkboxes |
| `Session.ShownElements` | public/gallery/gallery.js:162-166 | one image element per rendered record, in display order |
| `Session.Displayed` | public/gallery/gallery.js:130-192 | the page has one column per column count |
| `Session.DisplayedExactlyShown` | public/gallery/gallery.js:162-192 | every rendered record appears in some column, and no column holds anything else |
| `Session.Page.constructor` | public/gallery/gallery.js:18-19 | the page starts with `allSelected` false, empty master data and an empty menu |
| `Session.Page.UpdateSelectAllState` | public/gallery/gallery.js:204-208 | `allSelected` becomes true exactly when every checkbox is checked; nothing else changes |
| `Session.Page.SaveState` | public/gallery/gallery.js:210-218 | storage becomes `Saved` of the current state; nothing else changes |
| `Session.Page.ApplySaved` | public/gallery/gallery.js:229-232 | the loop over saved keys, in any order, leaves the checkboxes as `ApplyFilters` describes |
| `Session.Page.LoadState` | public/gallery/gallery.js:220-242 | the new checkboxes and dropdowns are `Loaded` of the old ones; on a parse failure nothing changes |
| `Session.Page.Render` | public/gallery/gallery.js:123-198 | the columns are the greedy layout of the filtered, sorted records for this width; `allSelected` is brought up to date |
| `Session.Page.OnManifest` | public/gallery/gallery.js:261-310 | master data is the normalised manifest and the menu is sorted, duplicate-free and complete; preferences load; the page renders unless loading failed |
| `Session.Page.OnCheckboxChange` | public/gallery/gallery.js:312-323 | the changed checkbox's state goes to every checkbox with its non-empty tag, then the page renders and saves |
| `Session.Page.OnSelectAllClick` | public/gallery/gallery.js:325-330 | every checkbox gets the flipped flag; with at least one checkbox the flag ends flipped; then the page renders and saves |
| `Session.Page.OnDropdownChoose` | public/gallery/gallery.js:244-259 | the chosen dropdown takes the option's value, and keeps its own when the option has none; the other dropdown keeps its value; then the page renders and saves |
| `Lightbox.LinkToOpen` | public/gallery/gallery.js:411-418 | a preview click opens its pretty link, or its source when the link is missing or empty |
| `Lightbox.Overlay.Open` | public/gallery/gallery.js:337-398 | without a source nothing changes. Otherwise both slots are reset, slot 1 loads with the image's pretty link, and slot 2 is shown and loaded only with a second preview. The overlay is revealed at once only if no started load is pending |
| `Lightbox.Overlay.OnSettled` | public/gallery/gallery.js:364-397 | a settled load stops pending, and the overlay is revealed exactly when the last pending load settles |
| `Lightbox.Overlay.OnOverlayClick` | public/gallery/gallery.js:400-408 | a click on the backdrop or the close button hides the overlay and clears both sources; any other click changes nothing |
| `Lightbox.Overlay.OnPreviewClick` | public/gallery/gallery.js:411-418 | the address opened is the clicked slot's link as `LinkToOpen` gives it |

## Left out

- `api/images.js` (the object-storage proxy) is not part of this model. It only passes requests to the storage service and maps its errors.
- `fetchDominantColor` and the hover border handlers are left out. They depend on the ColorThief library, pixel decoding and CORS. The model only records that opening clears each slot's cached colour and resets its border.
- The `IntersectionObserver` lazy loader is left out. It is browser callback plumbing, so a gallery image's `src` is a parameter of `Lightbox.Overlay.Open`.
- These DOM side effects are left out: scroll position, emptying and re-appending the column elements, the image-count text, the select-all button label, the dropdown highlight and button text in `setDropdownValue`.
- The resize debounce is left out, because it is timer behaviour. `Session.Page.Render` takes the width as a parameter.
- Fetching the manifest, the `localStorage` calls and JSON text are not modelled as I/O. Storage is a map from strings to strings. JSON is the `Codec` parameter, and the round trip assumes only that parsing what was stringified gives the map back. A stored filter text that parses to something other than an object of booleans is treated as a parse failure.
- `window.open` is left out. `Lightbox.Overlay.OnPreviewClick` returns the address instead.
- Building the raw and pretty URLs is string concatenation and is left out.
- `Dates.ParseDate` counts days in UTC. The local time zone and the time of day are not modelled, and the TimeClip range of ±100,000,000 days is not applied.
- `Dates.ToNumber` only handles strings of ASCII digits, which become their value, and the empty string, which becomes 0. Signs, decimals, exponents, hexadecimal and surrounding white space all become NaN in the model, whereas JavaScript accepts them.
- `Filtering.Trim` covers ASCII white space, the no-break space and the byte order mark. The other Unicode space separators and the line terminators U+2028 and U+2029, which `trim` also removes, are not modelled.
- Tags and ids are taken literally inside jQuery selectors. A tag with selector syntax (a quote, a dot, a space inside it), or one that trims to the empty string, is not modelled as the error jQuery would raise. Only checkbox elements can answer `$('#' + id)`: another page element with that id is not modelled.
- `Masonry.EstimatedAspectRatio` uses exact real division. Floating-point rounding is not modelled, and neither is the ratio of a decoded image whose natural width is 0. That case is excluded by `Masonry.WellSized`, which the browser guarantees.
- `FandomMenu.TotalOrder` asks `localeCompare` to be a total order. Locale collation can call two different strings equal, and that case is not modelled.
- `Lightbox.Overlay.Open` does not model overlapping opens. The `load`/`error` handlers and the `Promise.all` of an earlier open still wait when a new open starts, and only the latest open's loads are tracked. The fade animations are taken as immediate.
- `Session.Page.SaveState` saves every checkbox, whereas `saveState` only visits the checkboxes inside `#checkbox-filters`. Select-all and the checked count use every `.checkbox-item`. The model assumes that every checkbox sits inside `#checkbox-filters`; a checkbox outside it would not be saved.
- `Session.Page.ApplySaved` takes the saved keys in an arbitrary order. Keys are distinct and each sets a distinct set of checkboxes, so the order does not matter.

## Findings

| source | as written | input that shows it | evidently intended | confidence | as-written member | corrected member |
|---|---|---|---|---|---|---|
| public/gallery/gallery.js:75-79 | a date string that splits into three parts goes to `new Date(parts[2], parts[0] - 1, parts[1])` whatever the parts are, so a non-numeric part gives an Invalid Date (time value NaN). The sort comparator then subtracts NaN, which makes the comparison inconsistent | `"ab/01/2020"` | every date the parser cannot read falls back to the epoch, like the final `return new Date(0)` | not executed | `Dates.NonNumericDateIsInvalid` | `Dates.ParseDateKey` |
