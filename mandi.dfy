/** The price-shaping wrappers around the resolver: `get_mandi_prices`, `get_mandi_price`,
    `get_revenue_estimate`, `get_chatbot_mandi_price` and `get_dashboard_price_summary`
    (services.py:605-618, 705-804). */
module Mandi {
  import opened Wrappers
  import opened Text
  import opened Records
  import opened History
  import opened Snapshots
  import opened Resolver

  /** Estimated yield in quintals per acre, by lower-cased crop; 15 for any other crop. */
  const YieldTable: map<string, int> := map["rice" := 22, "wheat" := 20, "maize" := 25, "cotton" := 8, "chickpea" := 10]

  function YieldPerAcre(crop: string): int {
    var c := Lower(crop);
    if c in YieldTable then YieldTable[c] else 15
  }

  /** The yield looked up does not depend on the case of the crop name. */
  lemma YieldIgnoresCase(a: string, b: string)
    requires Lower(a) == Lower(b)
    ensures YieldPerAcre(a) == YieldPerAcre(b)
  {
  }

  function HindiHistoricalNote(district: string): string {
    Title(district) + " के लिए ऐतिहासिक डेटा का उपयोग किया जा रहा है।"
  }

  function HindiStateNote(district: string): string {
    Title(district) + " के लिए डेटा नहीं मिला, राज्य-स्तरीय ऐतिहासिक औसत का उपयोग किया जा रहा है।"
  }

  function HindiLiveNote(district: string): string {
    Title(district) + " के लिए लाइव बाजार डेटा का उपयोग किया जा रहा है।"
  }

  /** The Hindi note for an English provenance note, chosen by what the note contains. */
  function HindiNote(district: string, note: string): string {
    if Contains(note, HistoricalMarker) then HindiHistoricalNote(district)
    else if Contains(note, StateLevelMarker) then HindiStateNote(district)
    else HindiLiveNote(district)
  }

  /** The district-historical note is recognised as such. */
  lemma HindiNoteOfDistrictNote(district: string)
    ensures HindiNote(district, DistrictNote(district)) == HindiHistoricalNote(district)
  {
    var rest := " for " + Title(district) + ".";
    assert DistrictNote(district) == HistoricalMarker + rest;
    PrefixContains(HistoricalMarker, rest);
  }

  /** Whatever the district is called, the state-level note is not taken for the
      district-historical one and is recognised by its marker. */
  lemma HindiNoteOfStateNote(district: string)
    ensures HindiNote(district, StateNote(district)) == HindiStateNote(district)
  {
    StateNoteMissesHistorical(district);
    StateNoteHasMarker(district);
  }

  lemma StateNoteMissesHistorical(district: string)
    ensures !Contains(StateNote(district), HistoricalMarker)
  {
    var pre, post := "Could not find data for ", ", " + StateLevelMarker + " historical average.";
    assert StateNote(district) == pre + Title(district) + post;
    PreMissesMarker(pre);
    PostAvoidsMarker(post);
    TitledTextMisses(pre, district, post, HistoricalMarker, 6);
  }

  /** The text before a district name has no "U" that could begin the historical marker. */
  lemma PreMissesMarker(pre: string)
    requires pre == "Could not find data for "
    ensures forall j :: 0 <= j < |pre| && pre[j] == HistoricalMarker[0] ==> j + 6 < |pre| && pre[j + 6] != HistoricalMarker[6]
  {
    assert HistoricalMarker[0] !in pre;
  }

  lemma PostAvoidsMarker(post: string)
    requires post == ", " + StateLevelMarker + " historical average."
    ensures |post| > 0 && post[0] !in HistoricalMarker && HistoricalMarker[0] !in post
    ensures 0 < 6 < |HistoricalMarker| && !IsLetter(HistoricalMarker[5]) && IsLowerLetter(HistoricalMarker[6])
  {
  }

  lemma StateNoteHasMarker(district: string)
    ensures Contains(StateNote(district), StateLevelMarker)
  {
    var before := "Could not find data for " + Title(district) + ", ";
    assert StateNote(district) == before + StateLevelMarker + " historical average.";
    InfixContains(before, StateLevelMarker, " historical average.");
  }

  /** Whatever the district is called, the live note contains neither historical marker. */
  lemma HindiNoteOfLiveNote(district: string)
    ensures HindiNote(district, LiveNote(district)) == HindiLiveNote(district)
  {
    LiveNoteMisses(district, HistoricalMarker);
    LiveNoteMisses(district, StateLevelMarker);
  }

  lemma LiveNoteMisses(district: string, marker: string)
    requires marker == HistoricalMarker || marker == StateLevelMarker
    ensures !Contains(LiveNote(district), marker)
  {
    TitledTextMisses("Using live market data for ", district, ".", marker, 6);
  }

  /** The price fields every wrapper returns. */
  datatype PriceInfo = PriceInfo(crop: string, location: string, price: int, note: string,
                                 isStale: bool, staleDate: Option<string>)

  function Location(district: string, state: string): string {
    Title(district) + ", " + Title(state)
  }

  /** A wrapper's answer: the resolver's error passed through, or the shaped price. */
  datatype Answer<T> = Failed(error: string) | Answered(value: T)

  /** The `get_mandi_prices` report, less its float revenue fields. */
  datatype MandiReport = MandiReport(info: PriceInfo, yieldPerAcre: int)

  /** `get_mandi_prices` on a resolver result. */
  function MandiReportOf(r: PriceResult, state: string, district: string, crop: string, lang: string): (a: Answer<MandiReport>)
    ensures a.Answered? <==> r.Priced?
    ensures a.Failed? ==> a.error == r.error
    ensures a.Answered? ==>
      && a.value.info.price == r.price && a.value.info.isStale == r.isStale
      && a.value.info.staleDate == r.staleDate && a.value.yieldPerAcre == YieldPerAcre(crop)
  {
    match r
    case NoData(e) => Failed(e)
    case Priced(price, note, stale, date) =>
      var shown := if lang == "hi" then HindiNote(district, note) else note;
      Answered(MandiReport(PriceInfo(Capitalize(crop), Location(district, state), price, shown, stale, date), YieldPerAcre(crop)))
  }

  /** `get_mandi_prices` */
  method GetMandiPrices(store: SnapshotStore, api: LiveApi, h: Historical, state: string, district: string, crop: string, lang: string)
    returns (answer: Answer<MandiReport>)
    modifies store, api
    ensures var res := Resolve(old(store.files), old(store.now), api.model, h, state, district, crop);
      && answer == MandiReportOf(res.result, state, district, crop, lang)
      && store.files == res.files
      && api.log == old(api.log) + res.requests
    ensures store.now == old(store.now)
  {
    ghost var res := Resolve(store.files, store.now, api.model, h, state, district, crop);
    var priceData := FetchPriceData(store, api, h, state, district, crop);
    assert priceData == res.result;
    if priceData.NoData? {
      return Failed(priceData.error);
    }
    var note := priceData.note;
    if lang == "hi" {
      if Contains(note, HistoricalMarker) {
        note := HindiHistoricalNote(district);
      } else if Contains(note, StateLevelMarker) {
        note := HindiStateNote(district);
      } else {
        note := HindiLiveNote(district);
      }
    }
    assert note == if lang == "hi" then HindiNote(district, priceData.note) else priceData.note;
    var info := PriceInfo(Capitalize(crop), Location(district, state), priceData.price, note, priceData.isStale, priceData.staleDate);
    answer := Answered(MandiReport(info, YieldPerAcre(crop)));
  }

  /** In Hindi, the report's note names the tier that answered: live (snapshot or API),
      district-level historical, or state-level historical. */
  lemma HindiReportNamesTier(files: map<string, Snapshot>, now: int, model: LiveModel, h: Historical,
                             state: string, district: string, crop: string)
    ensures var res := Resolve(files, now, model, h, state, district, crop);
      var answer := MandiReportOf(res.result, state, district, crop, "hi");
      var hist := Fallback(h, state, crop, district);
      && (answer.Answered? && !answer.value.info.isStale ==> answer.value.info.note == HindiLiveNote(district))
      && (answer.Answered? && answer.value.info.isStale && hist.value.note == DistrictNote(district) ==>
            answer.value.info.note == HindiHistoricalNote(district))
      && (answer.Answered? && answer.value.info.isStale && hist.value.note != DistrictNote(district) ==>
            answer.value.info.note == HindiStateNote(district))
  {
    var res := Resolve(files, now, model, h, state, district, crop);
    ResultNote(files, now, model, h, state, district, crop);
    FallbackNote(h, state, crop, district);
    HindiReportOf(res.result, Fallback(h, state, crop, district), state, district, crop);
  }

  /** The Hindi report of a result whose note is the live note when fresh, and the note of
      the historical answer when stale. */
  lemma HindiReportOf(r: PriceResult, hist: Option<HistoricalPrice>, state: string, district: string, crop: string)
    requires r.Priced? && !r.isStale ==> r.note == LiveNote(district)
    requires r.Priced? && r.isStale ==>
      hist.Some? && r.note == hist.value.note && (hist.value.note == DistrictNote(district) || hist.value.note == StateNote(district))
    ensures var answer := MandiReportOf(r, state, district, crop, "hi");
      && (answer.Answered? && !answer.value.info.isStale ==> answer.value.info.note == HindiLiveNote(district))
      && (answer.Answered? && answer.value.info.isStale && hist.value.note == DistrictNote(district) ==>
            answer.value.info.note == HindiHistoricalNote(district))
      && (answer.Answered? && answer.value.info.isStale && hist.value.note != DistrictNote(district) ==>
            answer.value.info.note == HindiStateNote(district))
  {
    HindiNoteOfDistrictNote(district);
    HindiNoteOfStateNote(district);
    HindiNoteOfLiveNote(district);
  }

  /** The state a wrapper uses: the one given, unless it is missing or empty, and then the
      one `find_state_from_district` finds. */
  function StateFor(districts: map<string, string>, district: string, state: Option<string>): Option<string> {
    if state.Some? && state.value != "" then state else FindState(districts, district)
  }

  function NoStateError(district: string): string {
    "I couldn't determine the state for the district '" + district + "'. Please try again and provide a state."
  }

  /** `get_mandi_price` on a resolver result. */
  function PriceInfoOf(r: PriceResult, state: string, district: string, crop: string): Answer<PriceInfo> {
    match r
    case NoData(e) => Failed(e)
    case Priced(price, note, stale, date) =>
      Answered(PriceInfo(Capitalize(crop), Location(district, state), price, note, stale, date))
  }

  /** `get_mandi_price` */
  method GetMandiPrice(store: SnapshotStore, api: LiveApi, h: Historical, districts: map<string, string>,
                       district: string, crop: string, state: Option<string>)
    returns (answer: Answer<PriceInfo>)
    modifies store, api
    ensures var s := StateFor(districts, district, state);
      && (s.None? ==> answer == Failed(NoStateError(district)) && store.files == old(store.files) && api.log == old(api.log))
      && (s.Some? ==>
            var res := Resolve(old(store.files), old(store.now), api.model, h, s.value, district, crop);
            && answer == PriceInfoOf(res.result, s.value, district, crop)
            && store.files == res.files
            && api.log == old(api.log) + res.requests)
    ensures store.now == old(store.now)
  {
    var s: string;
    if state.None? || state.value == "" {
      var found := FindState(districts, district);
      if found.None? {
        return Failed(NoStateError(district));
      }
      s := found.value;
    } else {
      s := state.value;
    }
    assert StateFor(districts, district, state) == Some(s);
    ghost var res := Resolve(store.files, store.now, api.model, h, s, district, crop);
    var priceData := FetchPriceData(store, api, h, s, district, crop);
    assert priceData == res.result;
    if priceData.NoData? {
      return Failed(priceData.error);
    }
    answer := Answered(PriceInfo(Capitalize(crop), Location(district, s), priceData.price, priceData.note,
                                 priceData.isStale, priceData.staleDate));
  }

  /** The `get_revenue_estimate` answer, for an area of whole acres. */
  datatype RevenueInfo = RevenueInfo(crop: string, location: string, price: int, revenue: int, areaAcres: nat, note: string)

  /** `total_estimated_revenue`: yield per acre times area times price, or 0 without a price. */
  function Revenue(crop: string, area: nat, price: int): int {
    if price != 0 then YieldPerAcre(crop) * area * price else 0
  }

  function RevenueInfoOf(r: PriceResult, state: string, district: string, crop: string, area: nat): Answer<RevenueInfo> {
    match r
    case NoData(e) => Failed(e)
    case Priced(price, note, _, _) =>
      Answered(RevenueInfo(Capitalize(crop), Location(district, state), price, Revenue(crop, area, price), area, note))
  }

  /** The estimate grows with the area: one more acre adds one acre's worth of crop at the price. */
  lemma RevenuePerAcre(crop: string, area: nat, price: int)
    ensures Revenue(crop, area + 1, price) == Revenue(crop, area, price) + Revenue(crop, 1, price)
    ensures Revenue(crop, 0, price) == 0
    ensures price > 0 ==> Revenue(crop, area, price) <= Revenue(crop, area + 1, price)
  {
  }

  /** `get_revenue_estimate`, its control flow and the fields it does not compute in floats. */
  method GetRevenueEstimate(store: SnapshotStore, api: LiveApi, h: Historical, districts: map<string, string>,
                            district: string, crop: string, state: Option<string>, area: nat)
    returns (answer: Answer<RevenueInfo>)
    modifies store, api
    ensures var s := StateFor(districts, district, state);
      && (s.None? ==> answer == Failed(NoStateError(district)) && store.files == old(store.files) && api.log == old(api.log))
      && (s.Some? ==>
            var res := Resolve(old(store.files), old(store.now), api.model, h, s.value, district, crop);
            && answer == RevenueInfoOf(res.result, s.value, district, crop, area)
            && store.files == res.files
            && api.log == old(api.log) + res.requests)
    ensures store.now == old(store.now)
  {
    var s: string;
    if state.None? || state.value == "" {
      var found := FindState(districts, district);
      if found.None? {
        return Failed(NoStateError(district));
      }
      s := found.value;
    } else {
      s := state.value;
    }
    assert StateFor(districts, district, state) == Some(s);
    ghost var res := Resolve(store.files, store.now, api.model, h, s, district, crop);
    var priceData := FetchPriceData(store, api, h, s, district, crop);
    assert priceData == res.result;
    if priceData.NoData? {
      return Failed(priceData.error);
    }
    var price := priceData.price;
    var revenue := if price != 0 then YieldPerAcre(crop) * area * price else 0;
    answer := Answered(RevenueInfo(Capitalize(crop), Location(district, s), price, revenue, area, priceData.note));
  }

  /** A state that is given and not empty is used as it is; otherwise the district's state is
      looked up, and without one no price is fetched. */
  lemma StateForMeaning(districts: map<string, string>, district: string, state: Option<string>)
    ensures state.Some? && state.value != "" ==> StateFor(districts, district, state) == state
    ensures !(state.Some? && state.value != "") ==>
      (StateFor(districts, district, state).Some? <==> Clean(district) in districts && districts[Clean(district)] != "")
  {
  }

  /** The chatbot's historical-only answer. */
  datatype ChatPrice = ChatPrice(price: int, location: string, note: string)

  /** `get_chatbot_mandi_price` */
  function ChatbotMandiPrice(h: Historical, districts: map<string, string>, district: string, crop: string): (a: Answer<ChatPrice>)
    ensures a.Answered? <==> FindState(districts, district).Some? && Fallback(h, FindState(districts, district).value, crop, district).Some?
    ensures a.Answered? ==> a.value.price != 0 && a.value.location == Location(district, FindState(districts, district).value)
    ensures FindState(districts, district).None? ==> a == Failed("I couldn't identify the state for '" + district + "'.")
  {
    match FindState(districts, district)
    case None => Failed("I couldn't identify the state for '" + district + "'.")
    case Some(state) =>
      match Fallback(h, state, crop, district)
      case Some(hp) => Answered(ChatPrice(hp.price, Location(district, state), hp.note))
      case None => Failed("Sorry, I have no historical price data for " + crop + " in " + district + ".")
  }

  /** The chatbot's price is the one the resolver's historical tier gives for the same
      district, state and crop, so it agrees with any stale resolver answer there. */
  lemma ChatbotAgreesWithHistoricalTier(files: map<string, Snapshot>, now: int, model: LiveModel, h: Historical,
                                        districts: map<string, string>, district: string, crop: string)
    requires FindState(districts, district).Some?
    ensures var state := FindState(districts, district).value;
      var chat := ChatbotMandiPrice(h, districts, district, crop);
      var res := Resolve(files, now, model, h, state, district, crop);
      && (chat.Answered? <==> Fallback(h, state, crop, district).Some?)
      && (res.result.Priced? && res.result.isStale ==> chat.Answered? && chat.value.price == res.result.price)
  {
    var state := FindState(districts, district).value;
    StaleIffHistorical(files, now, model, h, state, district, crop);
  }

  /** The crops the dashboard charts, in order. */
  const KeyCrops: seq<string> := ["Rice", "Wheat", "Maize", "Cotton"]

  /** `CROP_TRANSLATIONS_HI` for the dashboard's crops. */
  const HindiCropNames: map<string, string> := map["rice" := "चावल", "wheat" := "गेहूं", "maize" := "मक्का", "cotton" := "कपास"]

  function Label(crop: string, lang: string): string {
    if lang == "hi" && Lower(crop) in HindiCropNames then HindiCropNames[Lower(crop)] else crop
  }

  function Labels(crops: seq<string>, lang: string): seq<string> {
    seq(|crops|, i requires 0 <= i < |crops| => Label(crops[i], lang))
  }

  /** Chart labels: in English the crop names as given; in Hindi the dashboard's four crops
      by their Hindi names. */
  lemma LabelsMeaning(crops: seq<string>, lang: string)
    ensures lang != "hi" ==> Labels(crops, lang) == crops
    ensures Labels(KeyCrops, "hi") == ["चावल", "गेहूं", "मक्का", "कपास"]
  {
    if lang != "hi" {
      assert forall i :: 0 <= i < |crops| ==> Labels(crops, lang)[i] == crops[i];
    }
    LowerKeyCrops();
  }

  lemma LowerKeyCrops()
    ensures Lower("Rice") == "rice" && Lower("Wheat") == "wheat" && Lower("Maize") == "maize" && Lower("Cotton") == "cotton"
  {
  }

  const StaleNoteEn: string := "Note: Some prices based on historical data."
  const StaleNoteHi: string := "ध्यान दें: कुछ मूल्य ऐतिहासिक डेटा पर आधारित हैं।"

  /** The dashboard summary: chart labels, chart prices and a note. */
  datatype Summary = Summary(labels: seq<string>, prices: seq<int>, note: string)

  /** The dashboard's crops run one after the other against the evolving snapshot directory. */
  datatype Run = Run(results: seq<PriceResult>, requests: seq<Request>, files: map<string, Snapshot>)

  function DashboardRun(files: map<string, Snapshot>, now: int, model: LiveModel, h: Historical,
                        state: string, district: string, crops: seq<string>): (run: Run)
    ensures |run.results| == |crops|
    ensures |run.requests| <= 2 * |crops|
    decreases |crops|
  {
    if |crops| == 0 then Run([], [], files)
    else
      var before := DashboardRun(files, now, model, h, state, district, crops[..|crops| - 1]);
      var res := Resolve(before.files, now, model, h, state, district, crops[|crops| - 1]);
      Run(before.results + [res.result], before.requests + res.requests, res.files)
  }

  /** The chart price of a resolver result: its price, or 0 without one. */
  function ChartPrice(r: PriceResult): int {
    if r.Priced? then r.price else 0
  }

  function ChartPrices(results: seq<PriceResult>): seq<int> {
    seq(|results|, i requires 0 <= i < |results| => ChartPrice(results[i]))
  }

  predicate AnyStale(results: seq<PriceResult>) {
    exists i :: 0 <= i < |results| && results[i].Priced? && results[i].isStale
  }

  function StaleNote(results: seq<PriceResult>, lang: string): string {
    if AnyStale(results) then (if lang == "hi" then StaleNoteHi else StaleNoteEn) else ""
  }

  function SummaryOf(results: seq<PriceResult>, crops: seq<string>, lang: string): Summary {
    Summary(Labels(crops, lang), ChartPrices(results), StaleNote(results, lang))
  }

  /** One more result adds its chart price and can only turn the note on. */
  lemma SummarySnoc(results: seq<PriceResult>, r: PriceResult, crops: seq<string>, crop: string, lang: string)
    ensures ChartPrices(results + [r]) == ChartPrices(results) + [ChartPrice(r)]
    ensures AnyStale(results + [r]) <==> AnyStale(results) || (r.Priced? && r.isStale)
    ensures Labels(crops + [crop], lang) == Labels(crops, lang) + [Label(crop, lang)]
  {
    if AnyStale(results) {
      var i :| 0 <= i < |results| && results[i].Priced? && results[i].isStale;
      assert (results + [r])[i] == results[i];
    }
    if r.Priced? && r.isStale {
      assert (results + [r])[|results|] == r;
    }
    if AnyStale(results + [r]) {
      var i :| 0 <= i < |results| + 1 && (results + [r])[i].Priced? && (results + [r])[i].isStale;
      if i < |results| {
        assert (results + [r])[i] == results[i];
      }
    }
  }

  /** The labels of one more crop from a list. */
  lemma LabelsStep(crops: seq<string>, i: int, lang: string)
    requires 0 <= i < |crops|
    ensures Labels(crops[..i + 1], lang) == Labels(crops[..i], lang) + [Label(crops[i], lang)]
  {
    assert crops[..i + 1] == crops[..i] + [crops[i]];
  }

  /** The loop of `get_dashboard_price_summary`, over any list of crops. */
  method SummarizeCrops(store: SnapshotStore, api: LiveApi, h: Historical, state: string, district: string,
                        crops: seq<string>, lang: string)
    returns (summary: Summary)
    modifies store, api
    ensures var run := DashboardRun(old(store.files), old(store.now), api.model, h, state, district, crops);
      && summary == SummaryOf(run.results, crops, lang)
      && store.files == run.files
      && api.log == old(api.log) + run.requests
    ensures store.now == old(store.now)
  {
    ghost var files, now, model := store.files, store.now, api.model;
    ghost var run := Run([], [], files);
    var labels: seq<string> := [];
    var prices: seq<int> := [];
    var note := "";
    var i := 0;
    while i < |crops|
      invariant 0 <= i <= |crops|
      invariant store.now == now && api.model == model
      invariant run == DashboardRun(files, now, model, h, state, district, crops[..i])
      invariant store.files == run.files && api.log == old(api.log) + run.requests
      invariant labels == Labels(crops[..i], lang)
      invariant prices == ChartPrices(run.results)
      invariant note == StaleNote(run.results, lang)
    {
      var crop := crops[i];
      ghost var res := Resolve(store.files, now, model, h, state, district, crop);
      LabelsStep(crops, i, lang);
      SummarySnoc(run.results, res.result, crops[..i], crop, lang);
      DashboardRunStep(files, now, model, h, state, district, crops, i, run);
      AppendAssoc(old(api.log), run.requests, res.requests);
      ghost var next := Run(run.results + [res.result], run.requests + res.requests, res.files);
      assert next == DashboardRun(files, now, model, h, state, district, crops[..i + 1]);
      var priceData := GetMandiPrices(store, api, h, state, district, crop, lang);
      labels := labels + [Label(crop, lang)];
      var price := if priceData.Answered? then priceData.value.info.price else 0;
      prices := prices + [price];
      if priceData.Answered? && priceData.value.info.isStale {
        note := StaleNoteEn;
        if lang == "hi" {
          note := StaleNoteHi;
        }
      }
      run := next;
      i := i + 1;
    }
    assert crops[..i] == crops;
    summary := Summary(labels, prices, note);
  }

  /** `get_dashboard_price_summary`: the summary over the key crops. */
  method DashboardPriceSummary(store: SnapshotStore, api: LiveApi, h: Historical, state: string, district: string, lang: string)
    returns (summary: Summary)
    modifies store, api
    ensures var run := DashboardRun(old(store.files), old(store.now), api.model, h, state, district, KeyCrops);
      && summary == SummaryOf(run.results, KeyCrops, lang)
      && store.files == run.files
      && api.log == old(api.log) + run.requests
    ensures store.now == old(store.now)
  {
    summary := SummarizeCrops(store, api, h, state, district, KeyCrops, lang);
  }

  /** Every price among the results is non-zero. */
  predicate NonZeroPrices(results: seq<PriceResult>) {
    forall i :: 0 <= i < |results| ==> results[i].Priced? ==> results[i].price != 0
  }

  /** The summary charts one label and one price per key crop; a price is 0 exactly when
      that crop's resolution found no price; the note is set exactly when some price is
      historical. */
  lemma SummaryMeaning(results: seq<PriceResult>, lang: string)
    requires |results| == |KeyCrops|
    requires NonZeroPrices(results)
    ensures var s := SummaryOf(results, KeyCrops, lang);
      && |s.labels| == 4 && |s.prices| == 4
      && (forall i :: 0 <= i < 4 ==> (s.prices[i] == 0 <==> results[i].NoData?))
      && (s.note != "" <==> exists i :: 0 <= i < 4 && results[i].Priced? && results[i].isStale)
  {
  }

  /** The loop step of the dashboard: the run over one more key crop. */
  lemma DashboardRunStep(files: map<string, Snapshot>, now: int, model: LiveModel, h: Historical,
                         state: string, district: string, crops: seq<string>, i: int, run: Run)
    requires 0 <= i < |crops| && run == DashboardRun(files, now, model, h, state, district, crops[..i])
    ensures var res := Resolve(run.files, now, model, h, state, district, crops[i]);
      DashboardRun(files, now, model, h, state, district, crops[..i + 1]) ==
        Run(run.results + [res.result], run.requests + res.requests, res.files)
  {
    var prefix := crops[..i + 1];
    assert prefix[..|prefix| - 1] == crops[..i];
    assert prefix[|prefix| - 1] == crops[i];
  }

  lemma AppendAssoc<T>(a: seq<T>, b: seq<T>, c: seq<T>)
    ensures a + b + c == a + (b + c)
  {
  }

  /** Every result of a dashboard run that is a price is a non-zero price. */
  lemma {:induction false} DashboardRunNonZero(files: map<string, Snapshot>, now: int, model: LiveModel, h: Historical,
                                               state: string, district: string, crops: seq<string>)
    ensures NonZeroPrices(DashboardRun(files, now, model, h, state, district, crops).results)
    decreases |crops|
  {
    if |crops| > 0 {
      var init, last := crops[..|crops| - 1], crops[|crops| - 1];
      DashboardRunNonZero(files, now, model, h, state, district, init);
      var before := DashboardRun(files, now, model, h, state, district, init);
      var res := Resolve(before.files, now, model, h, state, district, last);
      PriceNeverZero(before.files, now, model, h, state, district, last);
      NonZeroSnoc(before.results, res.result);
      assert DashboardRun(files, now, model, h, state, district, crops).results == before.results + [res.result];
    }
  }

  lemma NonZeroSnoc(results: seq<PriceResult>, r: PriceResult)
    requires NonZeroPrices(results) && (r.Priced? ==> r.price != 0)
    ensures NonZeroPrices(results + [r])
  {
    assert forall i :: 0 <= i < |results| ==> (results + [r])[i] == results[i];
  }

  /** No chart price is ever a stray zero: each is the resolver's non-zero price, or 0 for a
      crop the resolver had no price for. */
  lemma DashboardPricesMeaning(files: map<string, Snapshot>, now: int, model: LiveModel, h: Historical,
                               state: string, district: string, lang: string)
    ensures var run := DashboardRun(files, now, model, h, state, district, KeyCrops);
      var s := SummaryOf(run.results, KeyCrops, lang);
      && |s.labels| == 4 && |s.prices| == 4
      && (forall i :: 0 <= i < 4 ==> (s.prices[i] == 0 <==> run.results[i].NoData?))
      && (s.note != "" <==> exists i :: 0 <= i < 4 && run.results[i].Priced? && run.results[i].isStale)
  {
    var run := DashboardRun(files, now, model, h, state, district, KeyCrops);
    DashboardRunNonZero(files, now, model, h, state, district, KeyCrops);
    SummaryMeaning(run.results, lang);
  }
}
