# Remote Habitat data preparation, in Dafny

This project models the offline data pipeline of the Remote Habitat site and
proves properties of it. `scripts/seed-data.js` turns three FCC/CFPB CSV
extracts into the county dataset the site renders:

- the rural-designation list becomes a set of five-digit county FIPS codes;
- the provider summary becomes one top provider per county, where terrestrial
  beats satellite and, within a class, strictly greater coverage wins;
- the broadband summary becomes one scored record per county, sorted by
  remote-work score.

The read-only `scripts/find-unnamed-providers.js` scans that dataset. It groups
the counties whose provider is an unnamed `Local ISP #<id>` and reports them by
frequency.

Modules (one file each):

| module | what it holds |
|---|---|
| `Wrappers` | `Option` (JavaScript `undefined`) and `Result` (a run that aborts) |
| `Text` | `trim`, `padStart`, `includes`, `indexOf`, `replace` with a string pattern, string `<`, `new Set` order, and `[...new Set(xs)].sort()` |
| `Csv` | `parseCSVLine`, as a loop and as a recursive reference definition |
| `Slug` | `createSlug` |
| `Columns` | header `findIndex`, field access `parts[i]` as `Option`, `\|\| ''`, `parseFloat(...) \|\| 0`, and the run's errors |
| `OrderedMaps` | a JavaScript `Map` with string keys: lookup, `set`, and values in insertion order |
| `Tables` | `STATE_FIPS`, `STATE_COL_INDEX` and `PROVIDER_NAMES` as `map` constants |
| `Rural` | `loadRuralCounties` |
| `Providers` | `loadProviders` and its winner rule |
| `Scoring` | `calculateMaxAvailableSpeed`, the 65% estimate, `getSpeedRating`, `calculateRemoteWorkScore` |
| `Broadband` | `loadBroadbandData`: filters, join, first-row-per-FIPS |
| `Sorting` | the stable descending `Array.prototype.sort`, done in place on an `array` |
| `SeedData` | `findCSVFiles` and `main` |
| `UnnamedProviders` | `find-unnamed-providers.js` |

Modelling choices:

- **Numbers.** Numbers are exact `real`s. `Math.round(x)` is `floor(x + 0.5)`.
- **`parseFloat`.** It is a parameter `parse: string -> Option<real>`, where
  `None` stands for NaN. `parseFloat(undefined)` is NaN, so `parseFloat(...) || 0`
  gives 0 for an absent field and for an unparsable field.
- **Column lookups.** Header columns are looked up by name and may be `-1`.
  `parts[-1]` is `None`.
- **Undefined geography id.** `parts[colIndices.geographyId].padStart(...)` on an
  undefined field throws a TypeError. That ends the run, so the loaders return
  `Failure(UndefinedGeographyId)` for it.
- **Undefined provider id.** If the `provider_id` column is missing, the id is
  `None`. Such a record is never satellite, and it is named `Local ISP #undefined`.
- **Tables.** The loaders take the three tables as parameters. `SeedData.SourceTables`
  holds the script's own tables. Where the object literal repeats a key, the later
  entry is the one kept: `130228` is `Lumen`.
- **Satellite list.** `SATELLITE_IDS` is reproduced as written. It includes
  `130235`, which the name table calls Charter Communications.

Facts of the code worth noting:

- The remote-work score lies in [10, 100], not [0, 100]. Cost points are at least 5
  and rural points are at least 5.
- A provider name is replaced by `Local ISP #<id>` when the table entry is
  missing, and also when it is empty (`||`).
- `STATE_COL_INDEX[state] || 100` also gives 100 for a table value of 0.
- A `tech_type` column that is absent counts as empty, so it passes the "All Wired"
  filter.
- A row with an unknown state prefix, or with an empty county name, is skipped
  before the duplicate check. Such a row does not claim its FIPS code.

## Model

| member | source | states |
|---|---|---|
| `Text.Trim` | scripts/seed-data.js:74-80 | the result has no JavaScript whitespace at either end and is no longer than the input |
| `Text.TrimIsPiece` | scripts/seed-data.js:74-80 | the trimmed string is a contiguous piece of the input, with only whitespace removed around it |
| `Text.PadStart` | scripts/seed-data.js:98 | the result is `max(len, width)` long, ends with the input and is filled with the pad character before it |
| `Text.ContainsAt` | scripts/seed-data.js:820-822 | `includes` holds exactly when the pattern occurs at some position |
| `Text.IndexOf` | scripts/seed-data.js:704 | the first position where the pattern occurs, or -1 when it occurs nowhere |
| `Text.RemoveFirst` | scripts/seed-data.js:704 | `replace(' County', '')` removes exactly the first occurrence, leaves the string alone when there is none, and adds no character |
| `Text.FirstIndex` | scripts/seed-data.js:864 | the position where an element first appears: it holds the element and no earlier position does |
| `Text.Distinct` | scripts/seed-data.js:864 | `new Set(xs)`: duplicate-free, with the same members as `xs` |
| `Text.DistinctOrder` | scripts/seed-data.js:864 | a `Set` iterates in insertion order: the elements of `Distinct(xs)` come in the order of their first appearance in `xs` |
| `Text.SortStringsSorted` | scripts/seed-data.js:864 | `sort()` on distinct strings gives a strictly increasing sequence with the same members |
| `Text.SortedUnique` | scripts/seed-data.js:864 | `[...new Set(xs)].sort()` is strictly increasing, duplicate-free and has exactly the members of `xs` |
| `Csv.RawFieldsCount` | scripts/seed-data.js:64-82 | one extra field per comma outside quotes |
| `Csv.RawFieldsHaveNoQuotes` | scripts/seed-data.js:71-72 | quote characters never reach a field |
| `Csv.FieldsProperties` | scripts/seed-data.js:64-82 | `parseCSVLine` gives one more field than the unquoted commas; no field contains `"`; every field is trimmed |
| `Csv.ParseCsvLine` | scripts/seed-data.js:64-82 | the scanner loop returns exactly the reference fields, with the three properties above |
| `Slug.CollapseProperties` | scripts/seed-data.js:57 | `replace(/[^a-z0-9]+/g, '-')` leaves only `[a-z0-9-]` with no `--`, and keeps every alphanumeric in order |
| `Slug.CollapseSplit` | scripts/seed-data.js:57 | each maximal run of characters outside `[a-z0-9]` becomes exactly one hyphen in its own place: the text on either side of the run is collapsed on its own |
| `Slug.CollapseRun` | scripts/seed-data.js:57 | a separator run in front of an alphanumeric, or at the end, becomes one hyphen |
| `Slug.CollapseAlnums` | scripts/seed-data.js:57 | a string of `[a-z0-9]` alone is left as it is |
| `Slug.StripEdgeHyphensEdges` | scripts/seed-data.js:58 | `/(^-\|-$)/g` removes at most one hyphen at the front and one at the back and nothing else: the input is the result with an optional `-` on each side |
| `Slug.StripEdgeHyphensProperties` | scripts/seed-data.js:58 | dropping the edge hyphens of a collapsed string gives a well-formed slug with the same alphanumerics, cut from the input only at its edges |
| `Slug.CreateSlug` | scripts/seed-data.js:54-59 | the slug has only `[a-z0-9-]`, never starts or ends with `-`, never holds `--`, and keeps the lower-cased alphanumerics in order |
| `Slug.SlugIdempotent` | scripts/seed-data.js:54-59 | slugging a slug changes nothing |
| `Slug.CreateSlugWords` | scripts/seed-data.js:54-59 | two lower-case alphanumeric words around a run of separators that lower-casing keeps give the words joined by one hyphen ("new york" gives "new-york") |
| `Columns.FindIndex` | scripts/seed-data.js:593-596 | `findIndex` gives the first position of the name, or -1 exactly when the name is absent |
| `OrderedMaps.OrderedMap.Set` | scripts/seed-data.js:717 | `Map.set` updates the entry, appends a new key, keeps an old key in place, and keeps the map well formed |
| `OrderedMaps.OrderedMap.Values` | scripts/seed-data.js:740 | `values()` lists the entries in key-insertion order |
| `OrderedMaps.SetNewValues` | scripts/seed-data.js:740 | setting a new key appends its value to the values |
| `Rural.RuralEntry` | scripts/seed-data.js:96-99 | a line contributes exactly when its first field is non-empty, and then that field `padStart`-ed with `0` to five characters |
| `Rural.RuralSetMembers` | scripts/seed-data.js:93-100 | a code is in the rural set exactly when some data line after the header contributes it |
| `Rural.RuralCodes` | scripts/seed-data.js:87-104 | a code is in the returned set exactly when some line after the header has a non-empty first field that pads to it |
| `Rural.RuralSetPadded` | scripts/seed-data.js:98 | every code in the rural set is at least five characters long |
| `Rural.LoadRuralCounties` | scripts/seed-data.js:87-104 | the streaming loop skips the header and returns the set of padded first fields |
| `Providers.DisplayName` | scripts/seed-data.js:609 | the name from the table when it has a non-empty entry, and `Local ISP #<id>` otherwise: when the id is absent or its entry is empty (the `\|\|` fallback) |
| `Providers.ProviderRow` | scripts/seed-data.js:601-609 | non-County rows are skipped; a County row without a geography id throws; a County row is accepted exactly when it has a geography id; an accepted row carries the geography id padded to five digits, the display name of its provider id, `parseFloat(res_st_pct) \|\| 0` as coverage, and the id |
| `Providers.StepRule` | scripts/seed-data.js:620-635 | the four-branch winner rule, and no other county changes |
| `Providers.ResolveRowsFolds` | scripts/seed-data.js:587-636 | the resolver fails exactly when a line throws; otherwise it folds the County rows in order through the winner rule |
| `Providers.BestIsUnique` | scripts/seed-data.js:624-635 | at most one record satisfies the winner characterisation |
| `Providers.ResolvedProviders` | scripts/seed-data.js:624-635 | the map holds exactly the counties with County rows; each stored record is terrestrial if any terrestrial row exists; no row of that class has greater coverage; it is the first row of its class with that coverage, so ties keep the incumbent |
| `Providers.TerrestrialStays` | scripts/seed-data.js:626-631 | once a county's stored provider is terrestrial, no later row makes it satellite or lowers its coverage |
| `Providers.TerrestrialBeatsSatelliteExample` | scripts/seed-data.js:601-631 | two County rows of county 8031 read to the records `Hughes Network Systems` (satellite 130627, 95%) and `Local ISP #999999` (40%) under FIPS `08031`, and resolve to the terrestrial one in either order |
| `Providers.ProvidersFromLines` | scripts/seed-data.js:578-640 | `loadProviders` fails exactly when a data line throws; otherwise the map is the winner summary of the County rows and each stored record is the one some data line gives for its county |
| `Providers.LoadProviders` | scripts/seed-data.js:578-640 | the streaming loop over the header and the data lines returns what the row fold returns |
| `Scoring.Round` | scripts/seed-data.js:769 | `Math.round`: the nearest integer, with halves rounded up |
| `Scoring.MaxAvailableSpeed` | scripts/seed-data.js:749-770 | always a multiple of 5, and within 2.5 of the household-weighted speed |
| `Scoring.WeightedSpeedBounds` | scripts/seed-data.js:751-766 | for nested coverage fractions in [0, 1] the weighted speed lies in [5, 500] |
| `Scoring.MaxAvailableSpeedBounds` | scripts/seed-data.js:749-770 | for nested coverage fractions the published maximum lies in [5, 500] |
| `Scoring.MaxAvailableSpeedExtremes` | scripts/seed-data.js:756-765 | no coverage gives 5; full gigabit coverage gives 500 |
| `Scoring.MaxAvailableSpeedExample` | scripts/seed-data.js:698-700 | fractions (1, 0.8, 0.3, 0.05, 0) give 50, estimate 33, rating Basic |
| `Scoring.EstimatedSpeed` | scripts/seed-data.js:700 | the estimate is 65% of the maximum, rounded to the nearest integer |
| `Scoring.EstimatedSpeedMonotone` | scripts/seed-data.js:700 | the estimate never decreases as the maximum grows, and lies in [3, 325] for a maximum in [5, 500] |
| `Scoring.GetSpeedRating` | scripts/seed-data.js:775-781 | Excellent exactly at ≥250, Good at [100, 250), Moderate at [50, 100), Basic at [25, 50), Poor below 25 |
| `Scoring.SpeedRatingMonotone` | scripts/seed-data.js:775-781 | a faster county never gets a worse rating |
| `Scoring.SpeedPoints` | scripts/seed-data.js:792-797 | speed points lie in [0, 50] |
| `Scoring.CostPoints` | scripts/seed-data.js:801-805 | cost points lie in [5, 30] |
| `Scoring.RemoteWorkScore` | scripts/seed-data.js:786-812 | the score lies in [10, 100] and is the plain sum of the three parts, so the cap at 100 never cuts |
| `Scoring.ScoreMonotoneInSpeed` | scripts/seed-data.js:792-797 | more speed never lowers the score |
| `Scoring.ScoreAntitoneInCost` | scripts/seed-data.js:801-805 | a higher cost index never raises the score |
| `Scoring.RuralBonus` | scripts/seed-data.js:808-809 | being rural adds exactly 15 points |
| `Scoring.PerfectScore` | scripts/seed-data.js:786-812 | the score is 100 exactly when the speed is ≥500, the cost index ≤82 and the county rural |
| `Scoring.SpeedTierBoundary` | scripts/seed-data.js:792-793 | 500 Mbps scores exactly 5 points more than 499 |
| `Broadband.StripCommaTailCuts` | scripts/seed-data.js:704 | `replace(/,.*$/, '')` keeps a prefix and cuts at the first comma with no line terminator after it |
| `Broadband.StripCommaTailOneLine` | scripts/seed-data.js:704 | on a single line the kept name contains no comma |
| `Broadband.StripCommaTailAt` | scripts/seed-data.js:704 | the tail is cut at the first comma when the rest of the line has no terminator |
| `Broadband.AppendedIsFirst` | scripts/seed-data.js:704 | the first ` County` of `name + ' County'` is the appended one when `name` holds none |
| `Broadband.CountyName` | scripts/seed-data.js:703-704 | the extracted county name is trimmed, and contains no comma when the chosen field (`geography_desc`, else `geography_name`, else empty) is one line |
| `Broadband.CountyNameOfDesc` | scripts/seed-data.js:702-704 | a `geography_desc` of the form `<Name> County, <ST>` gives `<Name>`, whatever `geography_name` holds; with `geography_desc` absent or empty, a `geography_name` of that form gives the same |
| `Broadband.StateName` | scripts/seed-data.js:685-688 | a state is found exactly when the two-character prefix is in `STATE_FIPS` with a non-empty name |
| `Broadband.BroadbandRow` | scripts/seed-data.js:676-737 | rows failing the County/Total/All Wired filters are skipped; a filtered row without an id throws; a filtered row is accepted exactly when its state is known and its name non-empty; an accepted record carries the padded FIPS code, the county name, the maximum speed and the rounded coverage read off the row, and is consistent with the lookups (state, slugs, estimate, rating, score, provider or `Local ISP`, rural flag, cost index or 100) |
| `Broadband.RecordDetermined` | scripts/seed-data.js:676-737 | what the row and the lookups fix leaves no freedom: at most one record fits both |
| `Broadband.AcceptedRecordsConsistent` | scripts/seed-data.js:676-717 | every accepted record is what one of the data lines gives |
| `Broadband.CollectFolds` | scripts/seed-data.js:654-738 | the loader fails exactly when a line throws; otherwise it folds the accepted records through the duplicate check |
| `Broadband.CollectKeepsFirst` | scripts/seed-data.js:709-717 | the map's values are the first accepted record of every FIPS code, in first-appearance order |
| `Broadband.FirstOccurrencesDistinct` | scripts/seed-data.js:709 | no two output records share a FIPS code |
| `Broadband.FirstOccurrencesCover` | scripts/seed-data.js:709-717 | every accepted FIPS code is in the output |
| `Broadband.BroadbandOutput` | scripts/seed-data.js:645-743 | `loadBroadbandData` fails exactly when a line throws; otherwise it returns first-row-wins records, one per FIPS code, each consistent with the lookups and read off one of the data lines |
| `Broadband.LoadBroadbandData` | scripts/seed-data.js:645-743 | the streaming loop returns what the row fold returns |
| `Sorting.SortDescCorrect` | scripts/seed-data.js:861 | the sort is non-increasing by key, a permutation, and stable: equal keys keep their input order |
| `Sorting.SortDescKeySum` | scripts/find-unnamed-providers.js:49-50 | sorting keeps the sum of the keys |
| `Sorting.PermutationDistinct` | scripts/find-unnamed-providers.js:49-50 | a permutation of a duplicate-free sequence is duplicate-free |
| `Sorting.InsertInPlace` | scripts/seed-data.js:861 | one insertion step on the array moves the element past the larger keys after it |
| `Sorting.SortInPlace` | scripts/seed-data.js:861 | sorting the array in place leaves it equal to the stable descending sort of its old contents |
| `SeedData.FirstMatchUnique` | scripts/seed-data.js:820-822 | at most one name is the first match of a test |
| `SeedData.FindFirst` | scripts/seed-data.js:820-822 | `find` returns the first name satisfying the test, and nothing exactly when none does |
| `SeedData.FindCsvFiles` | scripts/seed-data.js:817-824 | each input is found exactly when some listed name contains its pattern, and what is found is the first listed name that does |
| `SeedData.OutputProperties` | scripts/seed-data.js:860-872 | `counties` is a stable, non-increasing-score permutation of the loaded records; `states` is strictly increasing and holds exactly their states; the totals are the lengths |
| `SeedData.LoadAllFailure` | scripts/seed-data.js:856-858 | loading fails only because of an undefined geography id |
| `SeedData.RunMissingDirectory` | scripts/seed-data.js:832-835 | the run stops with a missing directory exactly when the directory is absent |
| `SeedData.RunMissingFiles` | scripts/seed-data.js:837-845 | with the directory present, the run stops with missing files exactly when one of the three patterns matches no listed name |
| `SeedData.RunPublishes` | scripts/seed-data.js:856-872 | a successful run found all three files, loaded them and published the sorted loader output |
| `SeedData.LoadInputs` | scripts/seed-data.js:856-858 | the three loaders run in turn and give what `LoadAll` gives |
| `SeedData.SortCounties` | scripts/seed-data.js:861 | the in-place sort of the county array gives the stable descending sort by score |
| `SeedData.Seed` | scripts/seed-data.js:829-879 | `main` produces exactly `Run`'s result |
| `UnnamedProviders.MatchLocalIsp` | scripts/find-unnamed-providers.js:28 | a match captures a non-empty digit string `d` with name `Local ISP #` + `d` |
| `UnnamedProviders.MatchLocalIspComplete` | scripts/find-unnamed-providers.js:28 | every `Local ISP #` + digits name matches, capturing the digits |
| `UnnamedProviders.DisplayNameRoundTrip` | scripts/seed-data.js:609 | a digit id missing from the name table comes back out of the match; a county with no provider record (`Local ISP`) does not match |
| `UnnamedProviders.IdListMembers` | scripts/find-unnamed-providers.js:28-29 | an id is matched exactly when some county's top provider carries it |
| `UnnamedProviders.MatchingMembers` | scripts/find-unnamed-providers.js:39-43 | a sample belongs to an id's group exactly when a county with that id produced it |
| `UnnamedProviders.GroupUnnamed` | scripts/find-unnamed-providers.js:25-46 | the scan returns one group per matched id in first-appearance order, each with its counties and its states in insertion order |
| `UnnamedProviders.EntryOf` | scripts/find-unnamed-providers.js:58-63 | an entry's frequency is its county count; its states are sorted, distinct and the group's states; it has at most 5 samples, the first ones, as `County, State` |
| `UnnamedProviders.FindUnnamedProviders` | scripts/find-unnamed-providers.js:22-64 | the script's scan, sort and projection give the report `ReportOf`; the input sequence is a value and is not changed |
| `UnnamedProviders.SortedGroups` | scripts/find-unnamed-providers.js:49-50 | the sorted groups are the matched ids' groups, each id exactly once |
| `UnnamedProviders.ReportIds` | scripts/find-unnamed-providers.js:30-37 | `totalUnnamed` is the number of distinct matched ids; every id is listed once, and exactly the ids some county carries are listed |
| `UnnamedProviders.ReportEntries` | scripts/find-unnamed-providers.js:39-62 | each entry's frequency is its id's county count; its states are the sorted, distinct states of those counties; its samples are the first five in dataset order |
| `UnnamedProviders.ReportOrder` | scripts/find-unnamed-providers.js:49-50 | entries run in non-increasing frequency; ids with equal frequency keep their first-appearance order |
| `UnnamedProviders.CountsAddUp` | scripts/find-unnamed-providers.js:39-43 | the per-id counts of the distinct ids add up to the number of matching counties |
| `UnnamedProviders.ReportSum` | scripts/find-unnamed-providers.js:57-60 | the `frequency` fields add up to the number of counties whose top provider matches |

## Left out

- File and stream I/O is not modelled: `fs`, `readline`, `readdirSync`, `existsSync`, `mkdirSync`, `writeFileSync`, `JSON.parse` and `JSON.stringify`. Each input file is its sequence of lines, the directory listing is a sequence of names, and `read` maps a file name to its lines. `process.exit(1)` is a `Failure` value.
- The console reports of both scripts are not modelled (scripts/seed-data.js:881-914, scripts/find-unnamed-providers.js:72-83), nor is the column-list message at scripts/seed-data.js:672. They are diagnostic output only.
- The `generatedAt` timestamp is left out of both outputs, because the clock is nondeterministic.
- IEEE-754 arithmetic is not modelled. Speeds and fractions are exact reals, so a result that a double would round differently (for example at an exact .5 produced by `* 0.65`) can differ from the script's.
- `parseFloat` is abstract. It is a parameter giving a number or NaN, and its prefix-parsing rules are not modelled.
- `Slug.LowerChar` handles ASCII capitals, U+212A and U+0130 as JavaScript does, and keeps every other character. Other characters whose JavaScript lower-case form differs are not lowered. Their lower-case forms contain no `[a-z0-9]`, so no slug is affected.
- `find-unnamed-providers.js` reads `data.counties` from JSON. The model takes it as the `CountyRecord` sequence `seed-data.js` produces, and does not model a missing `counties.json` (the `process.exit` at lines 16-19).
- Strings are sequences of Unicode code points, where JavaScript strings are sequences of UTF-16 code units. For characters outside the Basic Multilingual Plane the two differ: `padStart` counts code units, `parseCSVLine` steps through surrogate halves, and the default `sort()` (scripts/seed-data.js:864, scripts/find-unnamed-providers.js:61) puts such characters before U+E000-U+FFFF, where `Text.StrLess` puts them after. FIPS codes, state names and the CSV structure are ASCII, so only unusual county names could be affected.
- `Providers.DisplayName` looks the id up in a Dafny `map`, where `PROVIDER_NAMES[providerId]` (scripts/seed-data.js:609) is a plain-object lookup that also finds inherited properties. A `provider_id` of `constructor`, `toString` or `__proto__` would give a non-string name in the script and `Local ISP #<id>` here. Real provider ids are numeric, so no row of the data is affected.
- Order-independence of provider resolution is not stated as a separate lemma. `Providers.ResolvedProviders` describes the stored record without reference to the row order, apart from the documented first-wins tie.
- Everything under `src/` is not part of this model: the Next.js pages, React components, map widget, blog and legal content.
