# Sports venue map of Taipei: ingestion and facet filter

The page shows the sports venues of Taipei (gyms, yoga studios, swimming
pools, billiard halls and climbing gyms) on a map, with a list beside it.
It loads the venue table as CSV text and turns each row into a venue
record. Each venue is classified by its remark column. The user narrows
the set by category, pool kind, district, distance from a reference point
and the current map viewport.

This project models that engine in Dafny:

- `Csv` (csv.dfy) is the CSV tokenizer `parseCSV`. `Scan` is the tokenizer
  as a function. `ParseCsv` is the source's index loop with its `""`
  skip-ahead, proved to compute `Parse`. The lemmas state the quoting and
  row rules. They also prove a round trip for every table whose rows are
  not a single empty cell and whose rows all end with the same terminator
  (LF, CR or CRLF), with or without one after the last row.
- `Records` (records.dfy) turns parsed rows into venue records:
  `buildRecord`, `normalizePhone`, `fixLongitude` and the two filters of
  `loadData`.
- `Classifier` (classifier.dfy) holds `CATEGORY_CONFIG`, `resolveCategory`
  and `resolveSwimLabel`.
- `Filters` (filters.dfy) holds the five-condition predicate of
  `applyFilters` and `getDistricts`.
- `Engine` (engine.dfy) is a class `FilterEngine` holding the `state`
  object's facet fields. Its methods are the UI handlers that change them.
  Every handler that calls `applyFilters` leaves `filtered` equal to the
  filter of the new state. The invariant `Valid` (the nearby switch is
  never on without a location) is kept by every handler.
- `Strings` (strings.dfy) and `Seqs` (seqs.dfy) model the ECMAScript
  built-ins the engine relies on: `trim`, `includes`, the default order of
  `sort`, `String(n)`, `filter` and `map` with index.

The inputs from outside are parameters:

- the fetched CSV text, for `LoadData` and `Init`;
- `parseFloat` followed by `Number.isFinite`, the abstract `NumberParser`;
- `haversine` and the map's `bounds.contains`, the two functions of `Env`;
- the coordinates from geolocation, for `SetUserLocation`;
- the slider value, for `SetRadius`.

Three behaviours of the code worth knowing:

- Records with a latitude or longitude of exactly 0 are dropped too, since
  `record.lat && record.lng` treats 0 as false.
- The fallback id counts position among the rows that survive the
  short-row filter, not among all rows of the file.
- An id cell may equal another row's fallback id, so ids are not unique in
  general. `FallbackIdsDistinct` proves the part that does hold.

## Model

| member | source | states |
|---|---|---|
| Strings.Trim | app.js:255 | the result of `trim` has no whitespace at either end, and an already trimmed string is returned unchanged |
| Strings.TrimPeelsWhitespace | app.js:255 | `trim` removes only whitespace, and only from the two ends: the result is a slice of the input between two whitespace runs |
| Strings.Contains | app.js:442-446 | definition of `includes`; its properties are stated by `Strings.ContainsAt`, `Strings.ContainsPrefix` and `Strings.ContainedCharsOccur` |
| Strings.ContainsAt | app.js:442-446 | `includes` holds whenever the needle occurs at some offset |
| Strings.ContainsPrefix | app.js:444-445 | whatever contains a string contains each of its prefixes, so a remark with 室內外 also has 室內 |
| Strings.ContainedCharsOccur | app.js:442-446 | if `s.includes(t)`, every character of `t` occurs in `s` (used to refute concrete `includes` tests) |
| Strings.Less | app.js:391 | definition of the default order of `sort` on the district names; its properties are stated by `Strings.LessIrreflexive`, `Strings.LessTransitive` and `Strings.LessTotal` |
| Strings.LessIrreflexive | app.js:391 | the default string order of `sort` is irreflexive |
| Strings.LessTransitive | app.js:391 | the default string order is transitive |
| Strings.LessTotal | app.js:391 | any two distinct strings are ordered one way or the other |
| Strings.NatToString | app.js:269 | `String(index + 1)` is a non-empty string of decimal digits with no leading zero except for 0 itself |
| Strings.DecimalRoundTrip | app.js:269 | reading the decimal digits of `String(n)` back gives `n` |
| Strings.NatToStringInjective | app.js:269 | distinct numbers give distinct strings |
| Seqs.Keep | app.js:203-206 | `filter` keeps at most the input's length, exactly the elements satisfying the predicate, in their order |
| Seqs.KeepMultiplicity | app.js:203-206 | `filter` keeps each element exactly as often as it occurs when it passes, and drops every occurrence otherwise |
| Seqs.KeepAppend | app.js:462-482 | filtering a concatenation is concatenating the filtered parts |
| Seqs.KeepAll | app.js:462-482 | when every element satisfies the predicate, `filter` returns the whole sequence |
| Seqs.KeepNone | app.js:462-482 | when no element satisfies the predicate, `filter` returns the empty sequence |
| Seqs.KeepCongruent | app.js:462-482 | `filter` depends only on the predicate's values on the elements present |
| Seqs.KeepNarrowing | app.js:462-482 | filtering by a stronger predicate equals filtering the weaker result, and is a subsequence of it |
| Seqs.KeepIdempotent | app.js:462-482 | filtering twice by the same predicate is filtering once |
| Seqs.MapIndexed | app.js:205 | `map((row, index) => …)` has the input's length, and element `i` is the image of element `i` with index `i` |
| Seqs.MapIndexedMembers | app.js:205 | an element of the mapped sequence is the image of some input element with its index, and every such image is present |
| Csv.EndRow | app.js:238-243 | definition of a row break: the row is emitted only when it has a pending value or a cell; its properties are stated by `Csv.EndRowOf`, `Csv.ScanTerminator` and `Csv.ScanBreaks` |
| Csv.Scan | app.js:217-248 | definition of the tokenizer as a function of the unread text; its properties are stated by the `Csv.Scan…` lemmas below |
| Csv.Parse | app.js:250-255 | definition of `parseCSV`'s result: the final flush, then every cell trimmed; its properties are stated by `Csv.ParseShape`, `Csv.TableRoundTrip`, `Csv.TableThenRowRoundTrip` and `Csv.TrailingBreaksAddNoRows` |
| Csv.TrimCells | app.js:255 | definition of `rows.map((row) => row.map((cell) => cell.trim()))`; its properties are stated by `Csv.TrimCellsOfTrimmed` and `Csv.ParseShape` |
| Csv.ParseCsv | app.js:211-256 | the character loop (with its `""` skip-ahead and final flush) returns exactly `Parse(text)` |
| Csv.ScanAppend | app.js:217-248 | scanning `a + b` is scanning `a` then `b` from the reached state, unless `b` starts with a quote |
| Csv.ScanPlain | app.js:247 | outside quotes, text without quotes, commas or line breaks is appended to the pending cell |
| Csv.ScanQuotedBody | app.js:221-228 | inside quotes, a text with its quotes doubled, followed by a closing quote, adds the text to the cell and leaves quotes |
| Csv.ScanField | app.js:221-235 | a plain or quoted field reads back as its text |
| Csv.ScanComma | app.js:231-235 | a comma outside quotes closes the pending cell and starts an empty one |
| Csv.ScanFieldComma | app.js:221-235 | a field and a comma close a cell holding exactly the field's text |
| Csv.ScanRow | app.js:221-235 | a comma-joined row of fields leaves its texts as the current cells and pending value, outside quotes |
| Csv.ScanTerminator | app.js:237-245 | LF, CR or CRLF outside quotes ends the row once; the LF of a CRLF finds nothing to emit |
| Csv.ScanRowBreak | app.js:237-245 | an emitted row and its terminator append that row's texts to the finished rows |
| Csv.ScanTable | app.js:217-248 | rows of well-formed fields, each terminated, append their texts to the finished rows, and the scan goes on with whatever follows |
| Csv.TableRoundTrip | app.js:211-256 | a table with plain or quoted fields and any one terminator parses back to its cell texts, trimmed |
| Csv.TableThenRowRoundTrip | app.js:211-256 | the same round trip when the last row has no terminator: the final flush emits it |
| Csv.LastRowCells | app.js:250-253 | the final flush of an emitted row after finished rows appends exactly that row's texts |
| Csv.TrimCellsOfTrimmed | app.js:255 | trimming cells that are already trimmed changes nothing |
| Csv.EndRowOf | app.js:238-243 | a row with a value or a cell is emitted with the pending value as its last cell |
| Csv.RowCells | app.js:250-253 | the final flush of a single emitted row yields exactly that row's texts |
| Csv.RowRoundTrip | app.js:211-256 | a single row without terminator parses back to its cell texts, trimmed |
| Csv.RowExample | app.js:211-256 | a one-row text of fields whose texts are trimmed parses to exactly those texts |
| Csv.QuotedCommaExample | app.js:231-235 | `a,"b,c",d` parses to `["a","b,c","d"]` |
| Csv.EscapedQuoteExample | app.js:221-225 | `a,"b""c",d` parses to `["a","b\"c","d"]` |
| Csv.ScanBreaks | app.js:237-245 | a run of line breaks outside quotes adds no row beyond the one the first break ends |
| Csv.TrailingBreaksAddNoRows | app.js:237-253 | trailing newlines, a CRLF or blank lines after text that ends outside quotes leave the result unchanged |
| Csv.ScanKeepsRowsNonEmpty | app.js:238-253 | every row the scan emits has at least one cell |
| Csv.ParseShape | app.js:237-255 | every parsed row has a cell, every cell is trimmed, and empty input gives no rows |
| Records.Cell | app.js:261 | definition of `row[i] ?? ""`; its property is stated by `Records.ShortRowReadsEmpty` and `Records.LabelMap` |
| Records.LastIndex | app.js:260-262 | finds the last header equal to the label, or reports that none is |
| Records.LabelMap | app.js:259-262 | the object built by the header loop has exactly the header labels as keys, and a repeated label holds its last column's cell (`""` when the row is short) |
| Records.DataObject | app.js:259-262 | the `headers.forEach` loop builds exactly `LabelMap` |
| Records.StripZeroSuffix | app.js:286 | removes one `.0` from the end when present, else returns the value unchanged |
| Records.NormalizePhone | app.js:284-287 | an absent or empty value gives `""`; otherwise one trailing `.0` is removed before trimming; the result is trimmed |
| Records.NormalizePhoneKeepsClean | app.js:284-287 | a trimmed value without a trailing `.0` is returned as it is |
| Records.NormalizePhoneExamples | app.js:284-287 | `"1.0.0"` gives `"1.0"`, `"12.0 "` gives `"12.0"`, and empty or absent values give `""` |
| Records.FixLongitude | app.js:289-295 | a value strictly between 20 and 30 gets 100 added; any other value, or NaN, is left as it is |
| Records.FixLongitudeBand | app.js:289-295 | the longitude is changed exactly when it lies in the band, and the result never lies in it |
| Records.FixLongitudeIdempotent | app.js:289-295 | correcting twice is correcting once |
| Records.FixLongitudeExamples | app.js:289-295 | 21.5 becomes 121.5; 121.5 and 15.0 are unchanged |
| Records.ParseCoordinate | app.js:264-265 | definition of `parseFloat` of a coordinate cell, an absent column (`undefined`) reading as NaN (`None`); its properties are stated by `Records.BuildRecordFields`, `Records.UnreadableLatitudeDropped` and `Records.FixLongitude` |
| Records.Lookup | app.js:269-278 | definition of `data[key]`, with `None` for `undefined`; its properties are stated by `Records.BuildRecordFields` and `Records.BuildRecordId` |
| Records.BuildRecord | app.js:258-282 | definition of `buildRecord`; its properties are stated by `Records.BuildRecordFields` and `Records.BuildRecordId` |
| Records.BuildRecordFields | app.js:264-281 | each field reads its labelled column: phones normalised, longitude corrected, latitude parsed, and a missing column gives `""` or an unreadable number |
| Records.BuildRecordId | app.js:269 | the id is the id cell, or `String(index + 1)` when that cell is empty, and is never empty |
| Records.ShortRowReadsEmpty | app.js:261 | a column the row is too short for reads as `""` |
| Records.Headers | app.js:202 | definition of `rows.shift()`: the first row, or no headers when there are no rows; used by `Records.DataRows`, `Records.BuiltMembers` and `Records.LoadRecordsSpec` |
| Records.DataRows | app.js:202-204 | the rows after the header with more than one cell, fewer than all rows |
| Records.Built | app.js:205 | definition of `.map((row, index) => buildRecord(row, headers, index))` over the data rows; its properties are stated by `Records.BuiltMembers`, `Records.FallbackIdsDistinct` and `Records.LoadRecordsSpec` |
| Records.BuiltMembers | app.js:205 | a built record is the record of some data row with its position among the data rows, and every such record is built |
| Records.HasCoordinates | app.js:206 | definition of `record.lat && record.lng`: both present and neither zero; used by `Records.LoadRecordsSpec`, `Records.UnreadableLatitudeDropped` and `Records.ReadableRecordKept` |
| Records.LoadRecords | app.js:203-206 | definition of the result of `loadData` on parsed rows; its properties are stated by `Records.LoadRecordsSpec` |
| Records.LoadRecordsSpec | app.js:203-206 | at most one record per data row; every record has non-zero coordinates; a record is kept exactly when it is built from a data row and has them; order is kept |
| Records.LoadData | app.js:198-209 | the loaded records are `LoadRecords` of the parsed text |
| Records.FallbackIdsDistinct | app.js:205 | two data rows without an id cell get different fallback ids |
| Records.UnreadableLatitudeDropped | app.js:206 | a record whose latitude is unreadable or zero is dropped |
| Records.ReadableRecordKept | app.js:206 | a record with both coordinates non-zero is kept |
| Classifier.CategoryConfig | app.js:5-40 | definition of `CATEGORY_CONFIG`: the entries `Gym`, `Yoga`, `Swim` (with its four pool sub-categories) and `Other`, each with its key, label and match list; its properties are stated by `Classifier.MatchListsDisjoint`, `Classifier.ResolveCategoryKeys`, `Filters.SwimLabelsAreSwim` and `Engine.SubLabelsOfConfig` |
| Classifier.FirstMatch | app.js:438 | `find` returns the first category whose match list holds the remark, or none when no list holds it |
| Classifier.ResolveCategory | app.js:437-439 | the result is a configured category: one listing the remark, or entry 3 ("other") when no list holds it |
| Classifier.MatchListsDisjoint | app.js:5-40 | no remark is listed by two categories |
| Classifier.ResolveCategoryExact | app.js:437-439 | a remark listed by a category resolves to that category; an unlisted remark resolves to "other" |
| Classifier.ResolveCategoryKeys | app.js:437-439 | each key is taken exactly by the remarks its category lists, and "other" by every remark no other category lists |
| Classifier.ResolveCategorySuperstrings | app.js:437-439 | 健身房A and 游泳池館, which strictly contain listed names, resolve to "other"; the general rule, that every remark in no match list is "other", is `Classifier.ResolveCategoryKeys` and `Classifier.ResolveCategoryExact` |
| Classifier.ListedSuperstringMatches | app.js:22-23 | 室內游泳池 contains 游泳池 and is swim, because it is listed in its own right |
| Classifier.ResolveSwimLabel | app.js:441-448 | one of five labels; non-empty only if the remark contains 游泳池; 一般 exactly for 游泳池; for any other remark containing 游泳池, 室內外 exactly when it contains 室內外, 室內 exactly when it contains 室內 but not 室內外, 室外 exactly when it contains 室外 but not 室內, and `""` exactly when it contains neither 室內 nor 室外 |
| Classifier.BothContainsIndoor | app.js:444-445 | a remark containing 室內外 contains 室內, which is why 室內外 is tested first |
| Classifier.SwimLabelTable | app.js:441-448 | the four pool remarks get 一般, 室內, 室外 and 室內外 |
| Classifier.IndoorPoolLabel | app.js:444-445 | 室內游泳池 gets 室內, as it does not contain 室內外 |
| Classifier.OutdoorPoolLabel | app.js:444-446 | 室外游泳池 gets 室外 |
| Classifier.BothPoolLabel | app.js:444 | 室內外游泳池 gets 室內外, tested before its prefix 室內 |
| Classifier.SwimHasLabel | app.js:437-448 | every remark classified as swim has a pool label |
| Classifier.LabelWithoutSwim | app.js:437-448 | a remark can have a pool label and still be "other" (室內游泳池館) |
| Classifier.IndoorHallLabel | app.js:441-448 | 室內游泳池館 gets 室內 |
| Filters.Matches | app.js:462-482 | definition of the `filter` callback: category, pool sub-filter, district, distance, viewport; its properties are stated by the `Filters` lemmas below |
| Filters.FilterVenues | app.js:462-482 | the filtered venues are the matching venues of the data in data order: no more than there are, exactly those matching, a subsequence |
| Filters.FilterIdempotent | app.js:460-484 | filtering the filtered list again with the same selection changes nothing |
| Filters.NarrowerMatches | app.js:462-482 | a venue that passes a narrower selection passes the wider one |
| Filters.FilterMonotone | app.js:462-482 | a narrower selection yields a subsequence of the wider one's result, equal to filtering that result |
| Filters.AddDistrictWidens | app.js:379-386 | ticking a district keeps everything shown and adds only venues of that district |
| Filters.RemoveCategory | app.js:354-361 | unticking a category removes exactly the venues of that category |
| Filters.NoLocationIgnoresProximity | app.js:472-475 | without a location neither the nearby switch nor the radius affects the result |
| Filters.SwimLabelsAreSwim | app.js:22-31 | the pool sub-labels are exactly the remarks classified as swim |
| Filters.EmptySwimSubIsAll | app.js:466-468 | with no pool label ticked the sub-filter is skipped, which is the same as all four ticked |
| Filters.CategoryKeysCover | app.js:437-439 | every remark's category key is among the configured keys |
| Filters.DistrictSet | app.js:391 | every venue's district is in the district set |
| Filters.FullSelectionShowsAll | app.js:460-482 | with every category, pool label and district ticked and neither distance nor viewport in force, all data is shown |
| Filters.InitialSelection | app.js:49-51 | definition of the selection `buildFilters` (app.js:305-388) leaves when no control was used while the data loaded: every category, every pool label and every district ticked, no location, radius 2, both switches off; its property is stated by `Filters.InitialShowsAll` |
| Filters.InitialShowsAll | app.js:305-388 | when no control was used while the data loaded, the selection `buildFilters` leaves shows the whole data set; from any other state `Engine.FilterEngine.Start` still ends with `filtered` equal to the filter of the state |
| Filters.NoDistrictShowsNothing | app.js:470 | with no district ticked nothing is shown |
| Filters.Insert | app.js:391 | inserting into a strictly sorted list keeps it strictly sorted and adds exactly the new element |
| Filters.Districts | app.js:390-392 | `getDistricts` is strictly sorted and holds exactly the districts of the data |
| Filters.SortedUnique | app.js:391 | two strictly sorted lists with the same elements are equal |
| Filters.DistrictsBySet | app.js:390-392 | the district list depends only on the set of districts, not on the order or repetitions of the data |
| Engine.SubLabelsOfConfig | app.js:322-333 | the sub-labels `buildFilters` ticks are exactly the four pool labels |
| Engine.FilterEngine.constructor | app.js:42-55 | the initial state: no data, no location, radius 2, both switches off, nothing ticked |
| Engine.FilterEngine.ApplyFilters | app.js:460-484 | `filtered` becomes the filter of the current state, and nothing else changes |
| Engine.FilterEngine.SetRadius | app.js:125-129 | the radius is set and the list recomputed |
| Engine.FilterEngine.ToggleNearby | app.js:131-140 | turning the switch on without a location is refused and recomputes nothing; otherwise the switch is set and the list recomputed; the nearby switch is never on without a location |
| Engine.FilterEngine.SetOnlyBounds | app.js:142-145 | the viewport switch is set and the list recomputed |
| Engine.FilterEngine.SelectAllDistricts | app.js:147-151 | the ticked districts become exactly the districts of the data, and the list is recomputed |
| Engine.FilterEngine.SelectNoDistricts | app.js:153-157 | no district is ticked and the recomputed list is empty |
| Engine.FilterEngine.SetCategory | app.js:354-361 | the category key is added or deleted, and the list recomputed |
| Engine.FilterEngine.SetSwimSub | app.js:339-346 | the pool label is added or deleted, and the list recomputed |
| Engine.FilterEngine.SetDistrict | app.js:379-386 | the district is added or deleted, and the list recomputed |
| Engine.FilterEngine.MapMoved | app.js:117-121 | a map move recomputes the list only while the viewport switch is on |
| Engine.FilterEngine.SetUserLocation | app.js:605-622 | the location is set and the list recomputed |
| Engine.FilterEngine.UseFallbackStation | app.js:171-173 | the location becomes Taipei Main Station (25.0478, 121.517) and the list is recomputed |
| Engine.FilterEngine.BuildFilters | app.js:305-388 | every configured key and every pool label is ticked in addition to what was ticked, and the ticked districts become exactly the districts of the data |
| Engine.FilterEngine.TickCategories | app.js:306-347 | the nested `forEach` loops add every key and every sub-label of the given categories |
| Engine.FilterEngine.Start | app.js:92-96 | after `buildFilters` and `applyFilters`, `filtered` is the filter of the new state, and everything is shown when there is no location and no viewport restriction |
| Engine.FilterEngine.Init | app.js:88-97 | the data become the records loaded from the text, the facets are built, and the list is the filter of the new state (everything, without location and viewport restriction) |

## Left out

- Leaflet, markers and tooltips are presentation and are not modelled: the map, the cluster group, marker icons and tooltips, `setupMap`, `renderMarkers`, `buildIcon`, `updateMarkers`, `focusVenue` and the user marker of `setUserLocation`. For the same reason the `icon` and `colorClass` fields of the categories, and the `markers` and `selectedId` fields of the state, are left out.
- DOM and presentation are not modelled: checkbox construction in `buildFilters`, `updateDistrictUI`, `updateList`, `showDetail`, `formatPhoneLink`, the clipboard and `setTimeout`. The list's sort by distance or by `localeCompare` is left out with `updateList`.
- Fuse search (`setupFuse`, `getSearchResults`, suggestions) is a foreign library whose code is not part of this model.
- `fetch` in `loadData` and `navigator.geolocation` in `locateUser` are I/O. Their results, the CSV text and a coordinate, are parameters. The alerts of `locateUser` are left out.
- `haversine`, `deg2rad` and `formatDistance` are floating-point trigonometry. The distance is the abstract function `Env.distanceKm`, and viewport containment is `Env.inView`.
- Filters.Matches: distances are reals, so a NaN distance is not modelled. The source keeps a venue whose distance is NaN, because `NaN > radius` is false.
- Records.NumberParser: `parseFloat` and `Number.isFinite` are one abstract function. Coordinates are mathematical reals, not IEEE doubles.
- Records.BuildRecordFields: a text field whose column is absent from the header row reads as `""`. The source stores `undefined` there. The phone fields do follow the source, because `normalizePhone(undefined)` is `""`.
- Filters.Position: a `null` coordinate is read as 0, as JavaScript arithmetic does. No loaded record has one, since `loadData` drops them.
- Strings.Less: characters are compared by code point, while `sort` compares UTF-16 code units. The two orders agree on the Basic Multilingual Plane, which holds all the district names.
- Strings.IsWhitespace: the space-separator category is written out as the fixed list ECMAScript uses. There is no general Unicode table.
- Engine.FilterEngine.ToggleNearby: the refused toggle's alert and the unticking of the checkbox are not modelled. Only the state effect is: the switch is off and nothing is recomputed.
- Engine.FilterEngine.Init: `setupMap`, `setupUI`, `setupFuse` and `renderMarkers` are left out, for the reasons above.
