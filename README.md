# Mandi price resolution — a Dafny model

This project models the market ("mandi") price core of the Kisan Drishti backend
(`services.py`). A farmer asks for the price of a crop in a district. The service answers it
from the first of four tiers that has a price:

1. a per-state snapshot file on disk, if it is less than twelve hours old;
2. the government's live price API for today, or else yesterday, whose non-empty answer is
   saved as the state's snapshot first;
3. a historical index built once from the bulk CSV of past arrivals. The index holds a rounded
   mean per (state, district, commodity) and a state-wide mean under the sentinel district
   `__state_avg__`;
4. otherwise, an error.

Around that resolver sit the following:
- the commodity alias table;
- the record filter and averager;
- the snapshot store;
- the district→state map;
- the public wrappers: the full price report with its Hindi note, the bare price, the revenue
  estimate, the chatbot's history-only lookup and the four-crop dashboard summary;
- one pass of the background snapshot refresher;
- some small pure helpers from the same file: the AI-advice parser, the day-ordinal suffix,
  the soil search term and the last-crop filter.

Modules, one per file:
- `Wrappers` holds `Option`.
- `Text` holds Python's string operations, restricted to ASCII case. They are `lower`, `strip`,
  `title`, `capitalize`, `in`, `find`, `split`, `join`, `replace` and string ordering.
- `Commodity` holds the alias table and the exact-match normalization.
- `Numbers` holds sums and round-half-to-even division.
- `Records` holds record values, the filter and the averager.
- `History` holds the CSV cleaning, the index build, the historical lookup and the district map.
- `Snapshots` holds the snapshot store: a class whose fields are the directory, as a map from
  file key to snapshot, and the clock, in integer seconds.
- `Resolver` holds the live API and the tiered resolver:
  - the live API is a class with a fixed answer oracle and a log of the requests sent;
  - the resolver's spec function `Resolve` returns the result, the new directory and the
    requests sent;
  - the method `FetchPriceData` is proved equal to `Resolve`.
- `Mandi` holds the public wrappers.
- `Refresh` holds the refresh pass.
- `Helpers` holds the pure helpers.

Each state-changing operation is a method on the store or the live API. It is proved equal to a
spec function of the old state. The properties are lemmas about those functions.

## Model

| member | source | states |
|---|---|---|
| Commodity.CropPattern | services.py:544 | the alternatives always include the lower-cased crop, and every alias of it, so a "rice" query also matches "paddy"; a canonical crop's alternatives all normalize to it; any other crop is its own only alternative |
| Commodity.NormalizationMapFromAliases | services.py:144-148 | every alias of every canonical crop, other than the crop itself, maps to that crop, and the map holds nothing else |
| Commodity.NormalizeIdempotent | services.py:150-151 | one exact-match pass leaves a canonical commodity name, so a second pass changes nothing |
| Commodity.NormalizeRenamesExactAliasesOnly | services.py:144-151 | a cleaned commodity is renamed iff it is exactly "paddy" or "corn"; "paddy rice" or "sweet corn" are kept as they are |
| History.CleanRows | services.py:133-154 | rows without a numeric modal price are dropped, no row is added, and every kept commodity is canonical |
| History.CleanRowsIff | services.py:133-154 | a cleaned row is present iff some CSV row with a numeric price cleans (lower, strip, alias) to it |
| History.GroupByKey | services.py:156-161 | the grouping holds a key iff some row has that (state, district, commodity) or (state, commodity) key, and each group's prices are exactly those rows' prices, in order |
| History.StoreMeans | services.py:157-163 | each group key gets the rounded mean of its group; every other key of the index keeps its value; no other key appears |
| History.BuildIndex | services.py:156-163 | the index holds, for each district key and each state-wide sentinel key, exactly the rounded mean of that group's rows |
| History.LoadHistorical | services.py:126-165 | the loaded rows are the cleaned CSV, and the index is the index of those rows |
| History.IndexEntryBetween | services.py:156-163 | an index entry lies between the smallest and the largest price of its group |
| History.GroupPricesNonEmpty | services.py:156-163 | a group has prices iff some row has that group key |
| History.IndexKeys | services.py:156-163 | an entry exists iff some row has that key; a sentinel-district entry exists iff some row of that state and commodity exists |
| History.StateCoversDistrict | services.py:156-163 | a district entry implies a state-wide entry for the same state and commodity |
| History.StateMeanIsOverRows | services.py:160-163 | the state-wide mean is over all rows, not over district means: district means 100 and 400 from three rows give 200, not 250 |
| History.FirstArrival | services.py:584-600 | a stale date found is the arrival date of the first row of the group in CSV order (`iloc[0]`): no earlier row has that key; none is found only when the group has no row |
| History.Fallback | services.py:574-603 | a historical answer never has price 0 |
| History.FallbackNote | services.py:589-598 | a historical answer's note is either the district-level note or the state-level note |
| History.FallbackMeaning | services.py:574-603 | the district mean is tried before the state-wide mean; a missing or zero mean is a miss; each hit has its own note; both missing gives no answer, including over an empty index; a district hit is dated by the first row of the district's group, a state-wide hit by the first row of the state's group |
| History.FallbackDates | services.py:580-600 | over the index entries themselves: a district hit is dated by the first row of the district's group, and a state-wide hit by the first row of the state's group |
| History.SentinelDistrictGetsStateMean | services.py:577-594 | a query district that cleans to "__state_avg__" gets the state-wide mean with the district note, dated "a prior date" when no row has that district |
| History.AliasQueryMissesHistory | services.py:578-580 | a query crop that is an alias ("paddy", "corn") never finds history, because the query is not alias-normalized while the index is |
| History.DistrictMapLookup | services.py:173 | a district key is present iff some entry lower-cases to it, and its state is the one from the last such entry |
| History.FindStateFromEntries | services.py:173-184 | over the map built from the JSON entries, a state is found iff the last entry whose lower-cased name equals the stripped, lower-cased district has a non-empty state, and it is that state |
| Records.ValueOf | services.py:519-524 | the value under the first key present in the record, or "" when none is |
| Records.FilteredIff | services.py:532-552 | a record is kept iff it is a dict item of the input and its district value contains the query district and its commodity value contains one of the crop's alias patterns |
| Records.FilterRecords | services.py:540-552 | the loop keeps exactly the records `Filtered` keeps, in order |
| Records.WholePartOfDecimalText | services.py:559-563 | a digit string is read as its number, and a price "w.f" with one dot is truncated to its whole part w |
| Records.Prices | services.py:557-563 | a number is collected iff some record's modal price is valid text (digits with at most one dot) whose whole part it is; at most one price per record, none negative |
| Records.CollectPrices | services.py:557-563 | the loop collects exactly the valid prices `Prices` lists, in order |
| Records.AveragePrice | services.py:565-572 | an average carries the live-data note for the district |
| Records.AveragePriceMeaning | services.py:526-572 | an average exists iff some matched record has a valid price; it is the ties-to-even rounded mean of those prices and lies between their bounds |
| Records.ParseAndAveragePrices | services.py:526-572 | the imperative parse-and-average returns `AveragePrice`'s average, or none |
| Numbers.RoundHalfEvenNearest | services.py:565-568 | Python `round` of a quotient: within one half of the exact value, and even on a tie |
| Numbers.MeanBetween | services.py:565-568 | a rounded mean lies between the smallest and the largest value |
| Snapshots.SaveThenLoad | services.py:620-670 | saving a state and loading it, under any casing of its name, within twelve hours returns the same records |
| Snapshots.ExpiredIsMissing | services.py:661-663 | a snapshot older than 43200 seconds loads as nothing |
| Snapshots.LoadAnswersFromFresh | services.py:645-670 | a load answers iff the state's file exists, has a timestamp, is at most 43200 seconds old, and holds records |
| Snapshots.SaveLeavesOtherStates | services.py:635 | saving a state leaves every load of a state with a different lower-cased name unchanged |
| Snapshots.SnapshotStore.Save | services.py:620-643 | the state's file becomes the records stamped with the current time; all other files and the clock are unchanged |
| Snapshots.SnapshotStore.Load | services.py:645-670 | the load returns `LoadSpec`'s answer for the current directory and time |
| Resolver.LiveApi.Fetch | services.py:478-517 | the fetch returns the oracle's answer for the title-cased state and the day; it logs one request, or none when no API key is set |
| Resolver.CacheTier | services.py:676-681 | a price parsed from the snapshot carries the live note naming the district |
| Resolver.LiveTier | services.py:683-694 | a price parsed from the live answer carries the live note naming the district |
| Resolver.FetchTodayOrYesterday | services.py:683-688 | today is fetched, and yesterday only when today's answer is missing or empty |
| Resolver.Resolve | services.py:672-702 | a priced answer is never 0, a fresh one carries the live note naming the district, and at most two live requests are sent |
| Resolver.FetchPriceData | services.py:672-702 | the result, the new snapshot directory and the requests sent are those of the tiered resolver spec |
| Resolver.CacheHitMakesNoLiveCall | services.py:676-681 | a fresh snapshot with a priced match answers fresh with the snapshot's price and note; no live request is sent and nothing is written |
| Resolver.ResultNote | services.py:676-702 | a fresh price carries the live note naming the district; a stale one carries the note of the historical answer |
| Resolver.LiveTierOrder | services.py:683-688 | at most two requests, none without a key; the first is for today; a second, for yesterday, only after an empty today |
| Resolver.ResolveRequests | services.py:676-688 | the requests are exactly the live tier's requests after a cache miss, and none after a cache hit |
| Resolver.LiveAnswerSavedBeforeParse | services.py:690-692 | after a cache miss, a non-empty live answer is saved even if it has no match, and nothing is written otherwise |
| Resolver.StaleIffHistorical | services.py:676-702 | an answer is stale iff it comes from the historical tier (cache and live missed, history hit); it has a stale date iff it is stale, and that date is history's |
| Resolver.PriceNeverZero | services.py:676-702 | a 0 average counts as a miss, so no tier answers with price 0 |
| Resolver.ErrorWhenAllTiersMiss | services.py:702 | an error is returned iff every tier misses, and it names the crop and the state |
| Resolver.SecondCallServedFromCache | services.py:620-702 | a second call within twelve hours after a live answer is served from the saved snapshot with the same result and no request |
| Mandi.YieldIgnoresCase | services.py:709 | the yield per acre depends only on the crop's lower-cased name |
| Mandi.HindiNoteOfDistrictNote | services.py:713-715 | a district-level historical note becomes the Hindi historical note |
| Mandi.HindiNoteOfStateNote | services.py:713-717 | a state-level note becomes the Hindi state-level note, since it lacks "Using historical data" |
| Mandi.HindiNoteOfLiveNote | services.py:713-719 | a live-data note becomes the Hindi live note |
| Mandi.StateNoteMissesHistorical | services.py:597 | the state-level note never contains "Using historical data", whatever the district is called |
| Mandi.StateNoteHasMarker | services.py:597 | the state-level note always contains "using state-level" |
| Mandi.LiveNoteMisses | services.py:567 | the live note contains neither marker, whatever the district is called |
| Mandi.HindiReportOf | services.py:713-719 | when a fresh note is the live note and a stale one is a historical note, the Hindi note names the matching tier |
| Mandi.MandiReportOf | services.py:705-728 | the report is an answer iff the resolver priced the crop; errors pass through unchanged; price, staleness, stale date and yield are carried over |
| Mandi.GetMandiPrices | services.py:705-728 | the report is that of the resolver's result, with the resolver's writes and requests |
| Mandi.HindiReportNamesTier | services.py:705-728 | in Hindi, the note names the tier: live for a fresh price, historical or state-level for a stale one |
| Mandi.GetMandiPrice | services.py:730-751 | with no state and none found for the district, an error naming the district and no request; otherwise the resolver's answer for the given or found state |
| Mandi.GetRevenueEstimate | services.py:753-778 | the same control flow as the bare price: a state error, a resolver error passed through, or the priced answer with its revenue for the area |
| Mandi.RevenuePerAcre | services.py:766-767 | the revenue estimate is additive in the area: no area earns nothing, and each further acre adds one acre's revenue |
| Mandi.StateForMeaning | services.py:735-738 | a non-empty given state is used as is; otherwise the district map's state is used |
| Mandi.ChatbotMandiPrice | services.py:605-618 | an error naming the district when no state is found; otherwise an answer iff the historical lookup has a price, which is non-zero and located at the district and found state |
| Mandi.ChatbotAgreesWithHistoricalTier | services.py:605-618 | the chatbot answers iff the historical tier has a price, and a stale resolver answer carries the chatbot's price |
| Mandi.LabelsMeaning | services.py:791-796 | in English the labels are the crops themselves; in Hindi the four dashboard crops are labelled "चावल", "गेहूं", "मक्का", "कपास" |
| Mandi.DashboardRun | services.py:786-800 | one resolver result per crop, in order, and at most two live requests per crop |
| Mandi.SummarizeCrops | services.py:786-803 | the loop's labels, prices and note are the summary of resolving each crop in turn against the evolving directory |
| Mandi.DashboardPriceSummary | services.py:780-804 | the summary of the four key crops, with the resolver's writes and requests |
| Mandi.SummaryMeaning | services.py:780-804 | four labels and four prices; a price is 0 iff that crop had no data; the note is set iff some price is stale |
| Mandi.DashboardPricesMeaning | services.py:780-804 | the same for the actual run: 0 exactly for the crops with no data, and a note iff some price is historical |
| Mandi.DashboardRunNonZero | services.py:798 | every priced result of the run has a non-zero price, so 0 in the chart marks exactly a missing price |
| Refresh.SortedStates | services.py:998 | every state of the district map occurs once, and the states are in ascending order |
| Refresh.RefreshRequests | services.py:1005-1008 | with a key, one request for today per state, in order; without a key, none |
| Refresh.RefreshPass | services.py:995-1021 | the corrected pass of the Findings row below: an empty map visits nothing; otherwise each distinct state, sorted, is fetched for today and its bare answer saved when non-empty; the clock is unchanged |
| Refresh.RefreshFiles | services.py:1005-1013 | the corrected pass of the Findings row below, on the directory: no file is removed, and every new file belongs to a visited state |
| Refresh.RefreshFilesAt | services.py:1010-1013 | the corrected pass of the Findings row below: a state with a non-empty answer ends the pass with that bare answer as its snapshot, stamped with the pass's time |
| Refresh.RefreshKeepsOthers | services.py:1005-1021 | files no visited state maps to are untouched |
| Refresh.RefreshWarmsCache | services.py:995-1021 | after the pass, a lookup within twelve hours that today's answer prices is served from the snapshot, fresh, with no request |
| Refresh.AsWrittenRefreshNeverServes | services.py:1011-1012 | as written, the saved snapshot never yields a price, and the next lookup goes to the live API again |
| Helpers.RemoveBoldRemoves | services.py:826 | removing every "**" leaves none, even where removal joins two stars |
| Helpers.SectionAdvice | services.py:825-829 | a section gives an item iff it contains ":**"; the title is the text before the first ":**" with every "**" removed, and the description the text after it, each with only the whitespace at its ends cut off; both are stripped and the title has no "**" |
| Text.TrimmedUnique | services.py:827-828 | the one slice with whitespace alone around it and none at its own ends is `strip()`'s result, so the title and description above are fully determined |
| Helpers.SectionDescription | services.py:826-828 | the description is the slice of the section after its first ":**" with only whitespace cut from either end, so it holds no "##" when the section holds none |
| Helpers.ParseSection | services.py:825-829 | the step for one section yields the section's item, or nothing without ":**" |
| Helpers.ParseSections | services.py:822-829 | the loop over the sections collects one item per section with ":**", in order |
| Helpers.SectionsAdvice | services.py:822-829 | every section holding ":**" has its item collected, and every item collected is some section's item; at most one item per section, and some item iff some section contains ":**" |
| Helpers.SectionsAdviceInOrder | services.py:822-829 | the items are those of the sections holding ":**", one each, in the order of the sections |
| Helpers.AdviceOf | services.py:822-831 | the parse always yields at least one item |
| Helpers.ParseAdvice | services.py:821-831 | the items of the titled sections of the stripped reply, or the single fallback item when there are none |
| Helpers.AdviceMeaning | services.py:821-831 | with no titled section, the single item ("AI Advice", raw reply); otherwise every item is tidy and carries no "##" |
| Helpers.DaySuffixIsOrdinal | services.py:268-271 | the suffix is the English ordinal suffix of the day: "st", "nd", "rd" for 1, 2, 3, 21, 22, 23, 31, and "th" otherwise |
| Helpers.SoilSearchTerm | services.py:368-370 | the term occurs in the lower-cased prediction; it is "clay" when clay is mentioned, and otherwise the prediction's first space-free word |
| Helpers.DropCrop | services.py:412 | the kept crops are exactly those whose lower-cased name differs from the last crop's |
| Helpers.FinalCrops | services.py:412-413 | the first five of the chosen crops (those kept after dropping the last crop, or all when none is kept), in rank order and capitalized; all of them when fewer than five |
| Helpers.DropCropKeepsOrder | services.py:412 | the kept crops are a subsequence of the recommendations in their order, and every recommendation other than the last crop is among them |
| Helpers.FinalCropsMeaning | services.py:412-413 | each final crop is the capitalized form of a recommendation, and the last crop is dropped whenever another crop remains |

## Left out

- The `@cache.memoize` decorators are not modelled. They are applied to a placeholder cache
  before the application installs a real one, so they are the identity.
- The background thread is not modelled: its start-up, the `threading.enumerate` guard, the
  five-second pauses, the infinite loop and the six-hour sleep. One sequential pass is
  modelled, and the clock stands still during it.
- The live API's HTTP request is an oracle over (title-cased state, day). HTTP and decoding
  errors are the oracle answering "none".
- The file I/O of the snapshot store is an in-memory map. An unreadable file or an unparsable
  timestamp is a `Snapshot.Unreadable` entry and loads as a miss. Write failures are not modelled.
- Refresh.RefreshPass: an exception for one state cannot occur in the model, so "the other
  states continue" holds trivially.
- The snapshot and the live tier use integer seconds and day numbers (`now / 86400`), not ISO
  8601 strings and local `datetime` values. Time zones, date formatting and request dates are
  the day numbers.
- pandas loading is modelled only in part. Each CSV row arrives with its modal price already
  parsed as an optional integer. Fractional CSV prices, NaN group keys and the order in which
  pandas returns groups are not modelled.
- Arrival dates are opaque strings. Their day-first parsing, re-formatting, unparseable dates
  and the "an earlier date" default are not modelled.
- History.FirstArrival: an absent `arrival_date` column is not modelled.
- History.FallbackMeaning: the district-hit date is not stated for a query district that cleans
  to "__state_avg__". There the district key is the state-wide key, and the date comes from the
  district-wise rows, as in the source; History.SentinelDistrictGetsStateMean states that case.
- Mandi.GetRevenueEstimate: the area is a whole number of acres, so `round` of the float
  product is exact; fractional areas and float rounding of large products are not modelled.
- Mandi.MandiReportOf, Mandi.GetMandiPrices: the report leaves out `total_estimated_revenue`
  and `area_acres` (services.py:710, :724), which multiply by a float area. Mandi.Revenue
  models that product, for whole acres, in the revenue estimate.
- Records.Prices, Records.AveragePrice: prices are exact integers, while the source parses each
  with `int(float(...))` and averages in floats. They diverge above 2^53; a digit string of more
  than 308 digits makes `int(float(...))` raise; and a Unicode digit such as "²" passes
  `isdigit()` but makes `float` raise. The model treats only ASCII digits as digits.
- The mean of the CSV groups is exact integer arithmetic rounded half to even. Floating-point
  error in pandas' mean is not modelled.
- Case mapping and whitespace are not fully modelled:
  - `lower`, `title` and `capitalize` act on ASCII letters only;
  - `strip` uses Python's whitespace set;
  - Unicode digits are not prices.
- `re.search` is plain substring search over each alias alternative. Regex metacharacters in
  the query district or crop are not modelled.
- JSON records hold strings only. A number-valued modal price is not modelled.
- The Hindi crop labels are modelled only for the four dashboard crops. The other entries of
  the translation table are not part of this model.
- The Gemini HTTP call, its "not configured" reply and its error reply are not modelled. Only
  the parse of a reply text is.
- Soil filtering over the recommendation DataFrame and cosine scoring are not modelled. Only
  the search term and the last-crop post-filter are.
- Everything else in `services.py` and in the repository is not part of this model: routes,
  the database, weather, crop health, reports, fertilizer plans and the chatbot dialogue.

## Findings

| source | as written | input that shows it | evidently intended | confidence | as-written member | corrected member |
|---|---|---|---|---|---|---|
| services.py:1011-1012 | the refresh pass saves the object `{"records": live_records, "timestamp": ...}` as the state's records, so the file holds that object nested in a second wrapper; when it is read back and flattened, its values are a list and a string, neither a record | any state whose live answer today is a non-empty list of records | save `live_records` itself, as the resolver does at services.py:691 | not executed | Refresh.AsWrittenRefreshNeverServes | Refresh.RefreshWarmsCache |
