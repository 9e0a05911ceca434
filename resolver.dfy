/** The tiered price resolver `_fetch_price_data` (services.py:672-702): the recent disk
    snapshot, then the live API for today, then for yesterday, then the historical index,
    then an error. The live API is an oracle (services.py:478-517). */
module Resolver {
  import opened Wrappers
  import opened Text
  import opened Records
  import opened History
  import opened Snapshots

  /** A request the live API received: the title-cased state and the day asked for. */
  datatype Request = Request(state: string, day: int)

  /** What the live API answers: whether an API key is configured, and the records list
      (or failure, `None`) it returns for a title-cased state and a day. */
  datatype LiveModel = LiveModel(hasKey: bool, respond: (string, int) -> Option<seq<Record>>)

  /** `_fetch_live_price_data(state, day)`: no request at all without an API key. */
  function LiveAnswer(model: LiveModel, state: string, day: int): Option<seq<Record>> {
    if model.hasKey then model.respond(Title(state), day) else None
  }

  /** The requests one call of `_fetch_live_price_data` sends. */
  function LiveRequests(model: LiveModel, state: string, day: int): seq<Request> {
    if model.hasKey then [Request(Title(state), day)] else []
  }

  /** The live API, with the log of every request it has received. */
  class LiveApi {
    const model: LiveModel
    var log: seq<Request>

    constructor (model: LiveModel)
      ensures this.model == model && log == []
    {
      this.model := model;
      log := [];
    }

    /** `_fetch_live_price_data` */
    method Fetch(state: string, day: int) returns (r: Option<seq<Record>>)
      modifies this
      ensures r == LiveAnswer(model, state, day)
      ensures log == old(log) + LiveRequests(model, state, day)
    {
      if !model.hasKey {
        return None;
      }
      log := log + [Request(Title(state), day)];
      r := model.respond(Title(state), day);
    }
  }

  /** The day a clock reading falls on. */
  function Day(now: int): int { now / 86400 }

  /** Python truthiness of a live answer: a non-empty list. */
  predicate NonEmpty(answer: Option<seq<Record>>) {
    answer.Some? && |answer.value| > 0
  }

  /** What `_fetch_price_data` returns: a price with its note and staleness, or an error. */
  datatype PriceResult =
    | Priced(price: int, note: string, isStale: bool, staleDate: Option<string>)
    | NoData(error: string)

  function NoDataError(crop: string, state: string): string {
    "No market data available for '" + crop + "' in " + state + " from any source."
  }

  /** One resolution: its result, the live requests it sent and the snapshot directory after it. */
  datatype Resolution = Resolution(result: PriceResult, requests: seq<Request>, files: map<string, Snapshot>)

  /** The snapshot tier: a price parsed from a recent, non-empty snapshot of the state. */
  function CacheTier(files: map<string, Snapshot>, now: int, state: string, district: string, crop: string): (r: Option<Average>)
    ensures r.Some? ==> r.value.note == LiveNote(district)
  {
    var cached := LoadSpec(files, now, state);
    if cached.Some? && Truthy(cached.value) then AveragePrice(cached.value, crop, district) else None
  }

  /** A parsed average that counts as a price: present and non-zero. */
  predicate Hit(a: Option<Average>) {
    a.Some? && a.value.price != 0
  }

  /** The live answer used: today's, or yesterday's when today's is missing or empty. */
  function LiveRecords(model: LiveModel, state: string, now: int): Option<seq<Record>> {
    var today := LiveAnswer(model, state, Day(now));
    if NonEmpty(today) then today else LiveAnswer(model, state, Day(now) - 1)
  }

  function LiveRequestsSent(model: LiveModel, state: string, now: int): seq<Request> {
    LiveRequests(model, state, Day(now))
      + (if NonEmpty(LiveAnswer(model, state, Day(now))) then [] else LiveRequests(model, state, Day(now) - 1))
  }

  /** The live tier: a price parsed from the live answer used, when it is non-empty. */
  function LiveTier(model: LiveModel, state: string, now: int, district: string, crop: string): (r: Option<Average>)
    ensures r.Some? ==> r.value.note == LiveNote(district)
  {
    var live := LiveRecords(model, state, now);
    if NonEmpty(live) then AveragePrice(LivePayload(live.value), crop, district) else None
  }

  /** The snapshot directory after the live tier: the live answer used saved, when non-empty. */
  function LiveSaved(files: map<string, Snapshot>, now: int, model: LiveModel, state: string): map<string, Snapshot> {
    var live := LiveRecords(model, state, now);
    if NonEmpty(live) then Saved(files, now, state, LivePayload(live.value)) else files
  }

  /** The historical tier and the final error. */
  function HistoricalTier(h: Historical, state: string, district: string, crop: string): PriceResult {
    match Fallback(h, state, crop, district)
    case Some(hp) => Priced(hp.price, hp.note, true, Some(hp.staleDate))
    case None => NoData(NoDataError(crop, state))
  }

  /** `_fetch_price_data` */
  function Resolve(files: map<string, Snapshot>, now: int, model: LiveModel, h: Historical,
                   state: string, district: string, crop: string): (res: Resolution)
    ensures res.result.Priced? ==> res.result.price != 0
    ensures res.result.Priced? && !res.result.isStale ==> res.result.note == LiveNote(district)
    ensures |res.requests| <= 2
  {
    var cached := CacheTier(files, now, state, district, crop);
    if Hit(cached) then Resolution(Priced(cached.value.price, cached.value.note, false, None), [], files)
    else
      var fromLive := LiveTier(model, state, now, district, crop);
      var result :=
        if Hit(fromLive) then Priced(fromLive.value.price, fromLive.value.note, false, None)
        else HistoricalTier(h, state, district, crop);
      Resolution(result, LiveRequestsSent(model, state, now), LiveSaved(files, now, model, state))
  }

  /** Lines 683-688 of `_fetch_price_data`: today's records, or yesterday's when today's
      answer is missing or empty. */
  method FetchTodayOrYesterday(api: LiveApi, state: string, now: int) returns (live: Option<seq<Record>>)
    modifies api
    ensures live == LiveRecords(api.model, state, now)
    ensures api.log == old(api.log) + LiveRequestsSent(api.model, state, now)
  {
    var today := Day(now);
    live := api.Fetch(state, today);
    if !NonEmpty(live) {
      live := api.Fetch(state, today - 1);
    }
  }

  /** `_fetch_price_data`, step by step against the snapshot store and the live API. */
  method FetchPriceData(store: SnapshotStore, api: LiveApi, h: Historical, state: string, district: string, crop: string)
    returns (result: PriceResult)
    modifies store, api
    ensures result == Resolve(old(store.files), old(store.now), api.model, h, state, district, crop).result
    ensures store.files == Resolve(old(store.files), old(store.now), api.model, h, state, district, crop).files
    ensures api.log == old(api.log) + Resolve(old(store.files), old(store.now), api.model, h, state, district, crop).requests
    ensures store.now == old(store.now)
  {
    ghost var files, now, model := store.files, store.now, api.model;
    var cached := store.Load(state);
    if cached.Some? && Truthy(cached.value) {
      var avg := ParseAndAveragePrices(cached.value, crop, district);
      if avg.Some? && avg.value.price != 0 {
        assert CacheTier(files, now, state, district, crop) == avg;
        CacheHitMakesNoLiveCall(files, now, model, h, state, district, crop);
        return Priced(avg.value.price, avg.value.note, false, None);
      }
    }
    assert !Hit(CacheTier(files, now, state, district, crop));
    ResolveAfterCacheMiss(files, now, model, h, state, district, crop);
    var live := FetchTodayOrYesterday(api, state, store.now);
    if NonEmpty(live) {
      store.Save(state, LivePayload(live.value));
      var avg := ParseAndAveragePrices(LivePayload(live.value), crop, district);
      if avg.Some? && avg.value.price != 0 {
        assert LiveTier(model, state, now, district, crop) == avg;
        return Priced(avg.value.price, avg.value.note, false, None);
      }
    }
    assert store.files == LiveSaved(files, now, model, state);
    assert !Hit(LiveTier(model, state, now, district, crop));
    var fallback := Fallback(h, state, crop, district);
    if fallback.Some? {
      return Priced(fallback.value.price, fallback.value.note, true, Some(fallback.value.staleDate));
    }
    return NoData(NoDataError(crop, state));
  }

  /** After a snapshot miss, the resolution is the live tier's, else the historical tier's. */
  lemma ResolveAfterCacheMiss(files: map<string, Snapshot>, now: int, model: LiveModel, h: Historical,
                              state: string, district: string, crop: string)
    requires !Hit(CacheTier(files, now, state, district, crop))
    ensures var live := LiveTier(model, state, now, district, crop);
      Resolve(files, now, model, h, state, district, crop) ==
        Resolution(if Hit(live) then Priced(live.value.price, live.value.note, false, None) else HistoricalTier(h, state, district, crop),
                   LiveRequestsSent(model, state, now), LiveSaved(files, now, model, state))
  {
  }

  /** A recent snapshot that yields a price answers alone: not stale, no live request, no write. */
  lemma CacheHitMakesNoLiveCall(files: map<string, Snapshot>, now: int, model: LiveModel, h: Historical,
                                state: string, district: string, crop: string)
    requires Hit(CacheTier(files, now, state, district, crop))
    ensures var res := Resolve(files, now, model, h, state, district, crop);
      && res.requests == [] && res.files == files
      && res.result == Priced(CacheTier(files, now, state, district, crop).value.price,
                              CacheTier(files, now, state, district, crop).value.note, false, None)
  {
  }

  /** The live tier asks for today first and for yesterday only when today's answer is
      missing or empty; without an API key it sends nothing. */
  lemma LiveTierOrder(files: map<string, Snapshot>, now: int, model: LiveModel, h: Historical,
                      state: string, district: string, crop: string)
    ensures var res := Resolve(files, now, model, h, state, district, crop);
      && |res.requests| <= 2
      && (!model.hasKey ==> res.requests == [])
      && (|res.requests| > 0 ==> res.requests[0] == Request(Title(state), Day(now)))
      && (|res.requests| == 2 ==> res.requests[1] == Request(Title(state), Day(now) - 1)
                                  && !NonEmpty(LiveAnswer(model, state, Day(now))))
      && (model.hasKey && !Hit(CacheTier(files, now, state, district, crop)) ==>
            (|res.requests| == 2 <==> !NonEmpty(LiveAnswer(model, state, Day(now)))))
  {
    ResolveRequests(files, now, model, h, state, district, crop);
  }

  /** The requests a resolution sends: none on a snapshot hit, otherwise the live tier's. */
  lemma ResolveRequests(files: map<string, Snapshot>, now: int, model: LiveModel, h: Historical,
                        state: string, district: string, crop: string)
    ensures Resolve(files, now, model, h, state, district, crop).requests ==
      if Hit(CacheTier(files, now, state, district, crop)) then [] else LiveRequestsSent(model, state, now)
  {
  }

  /** Whenever the live tier is reached and its answer is non-empty, that answer is saved as
      the state's snapshot, whether or not it holds a price for this crop and district. */
  lemma LiveAnswerSavedBeforeParse(files: map<string, Snapshot>, now: int, model: LiveModel, h: Historical,
                                   state: string, district: string, crop: string)
    requires !Hit(CacheTier(files, now, state, district, crop))
    ensures var res := Resolve(files, now, model, h, state, district, crop);
      var live := LiveRecords(model, state, now);
      && (NonEmpty(live) ==> res.files == Saved(files, now, state, LivePayload(live.value)))
      && (!NonEmpty(live) ==> res.files == files)
  {
  }

  /** A result is stale exactly when it comes from the historical index, and only a stale
      result carries a stale date. */
  lemma StaleIffHistorical(files: map<string, Snapshot>, now: int, model: LiveModel, h: Historical,
                           state: string, district: string, crop: string)
    ensures var res := Resolve(files, now, model, h, state, district, crop);
      var liveMiss := !Hit(LiveTier(model, state, now, district, crop));
      && (res.result.Priced? && res.result.isStale <==>
            !Hit(CacheTier(files, now, state, district, crop)) && liveMiss && Fallback(h, state, crop, district).Some?)
      && (res.result.Priced? ==> (res.result.staleDate.Some? <==> res.result.isStale))
      && (res.result.Priced? && res.result.isStale ==>
            res.result.price == Fallback(h, state, crop, district).value.price
            && res.result.staleDate == Some(Fallback(h, state, crop, district).value.staleDate))
  {
  }

  /** A fresh price carries the live-data note; a stale one carries the historical note. */
  lemma ResultNote(files: map<string, Snapshot>, now: int, model: LiveModel, h: Historical,
                   state: string, district: string, crop: string)
    ensures var res := Resolve(files, now, model, h, state, district, crop);
      && (res.result.Priced? && !res.result.isStale ==> res.result.note == LiveNote(district))
      && (res.result.Priced? && res.result.isStale ==>
            Fallback(h, state, crop, district).Some? && res.result.note == Fallback(h, state, crop, district).value.note)
  {
    if !Hit(CacheTier(files, now, state, district, crop)) && !Hit(LiveTier(model, state, now, district, crop)) {
      assert Resolve(files, now, model, h, state, district, crop).result == HistoricalTier(h, state, district, crop);
    }
  }

  /** A price of zero counts as no price: every price the resolver returns is non-zero. */
  lemma PriceNeverZero(files: map<string, Snapshot>, now: int, model: LiveModel, h: Historical,
                       state: string, district: string, crop: string)
    ensures var res := Resolve(files, now, model, h, state, district, crop);
      res.result.Priced? ==> res.result.price != 0
  {
  }

  /** The error result comes exactly when every tier misses. */
  lemma ErrorWhenAllTiersMiss(files: map<string, Snapshot>, now: int, model: LiveModel, h: Historical,
                              state: string, district: string, crop: string)
    ensures var res := Resolve(files, now, model, h, state, district, crop);
      res.result.NoData? <==>
        && !Hit(CacheTier(files, now, state, district, crop))
        && !Hit(LiveTier(model, state, now, district, crop))
        && Fallback(h, state, crop, district).None?
    ensures var res := Resolve(files, now, model, h, state, district, crop);
      res.result.NoData? ==> res.result.error == NoDataError(crop, state)
  {
  }

  /** After a price is served from the live API, asking again for the same state, district
      and crop within twelve hours is answered from the snapshot that call wrote, with the
      same price and note and no live request. */
  lemma SecondCallServedFromCache(files: map<string, Snapshot>, now: int, later: int, model: LiveModel,
                                  h: Historical, state: string, district: string, crop: string)
    requires now <= later <= now + MaxAge
    requires var first := Resolve(files, now, model, h, state, district, crop);
      first.result.Priced? && !first.result.isStale && first.requests != []
    ensures var first := Resolve(files, now, model, h, state, district, crop);
      var second := Resolve(first.files, later, model, h, state, district, crop);
      && second.requests == []
      && second.files == first.files
      && second.result == first.result
  {
    var first := Resolve(files, now, model, h, state, district, crop);
    var live := LiveRecords(model, state, now);
    assert NonEmpty(live) && Hit(LiveTier(model, state, now, district, crop));
    SaveThenLoad(files, now, later, state, state, LivePayload(live.value));
    assert CacheTier(first.files, later, state, district, crop) == AveragePrice(LivePayload(live.value), crop, district);
  }
}
