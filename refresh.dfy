/** The background snapshot refresh `_cache_updater_worker` (services.py:987-1029): one
    pass over every state of the district map, in sorted order, asking the live API for
    today's records of each and saving a non-empty answer as that state's snapshot. */
module Refresh {
  import opened Wrappers
  import opened Text
  import opened Records
  import opened History
  import opened Snapshots
  import opened Resolver
  import opened Commodity

  /** Each state comes strictly after the one before it, so none occurs twice. */
  predicate StrictlySorted(s: seq<string>) {
    forall i, j :: 0 <= i < j < |s| ==> LexLt(s[i], s[j])
  }

  /** `x` is the least string of `s`. */
  predicate IsLeast(x: string, s: set<string>) {
    x in s && forall y :: y in s ==> LexLe(x, y)
  }

  /** A non-empty set of strings has a least element. */
  lemma {:induction false} LeastExists(s: set<string>)
    requires s != {}
    ensures exists x :: IsLeast(x, s)
    decreases s
  {
    var a :| a in s;
    var rest := s - {a};
    LexTotal(a, a);
    if rest == {} {
      forall y | y in s
        ensures LexLe(a, y)
      {
        assert y !in rest;
      }
      assert IsLeast(a, s);
    } else {
      LeastExists(rest);
      var m :| IsLeast(m, rest);
      LexTotal(a, m);
      if LexLe(a, m) {
        forall y | y in s
          ensures LexLe(a, y)
        {
          if y != a {
            assert y in rest;
            LexTransitive(a, m, y);
          }
        }
        assert IsLeast(a, s);
      } else {
        forall y | y in s
          ensures LexLe(m, y)
        {
          if y != a {
            assert y in rest;
          }
        }
        assert IsLeast(m, s);
      }
    }
  }

  /** `sorted(set(_DISTRICT_TO_STATE_MAP.values()))`: each state once, in ascending order. */
  method SortedStates(districts: map<string, string>) returns (states: seq<string>)
    ensures StrictlySorted(states)
    ensures forall x :: x in states <==> x in districts.Values
  {
    var remaining := districts.Values;
    states := [];
    while remaining != {}
      invariant StrictlySorted(states)
      invariant forall x :: x in districts.Values <==> x in states || x in remaining
      invariant forall i, y :: 0 <= i < |states| && y in remaining ==> LexLt(states[i], y)
      decreases remaining
    {
      LeastExists(remaining);
      var x :| IsLeast(x, remaining);
      states := states + [x];
      remaining := remaining - {x};
    }
  }

  /** One state of the pass: today's live answer saved as its snapshot when non-empty. */
  function RefreshStep(files: map<string, Snapshot>, now: int, model: LiveModel, state: string): map<string, Snapshot> {
    var live := LiveAnswer(model, state, Day(now));
    if NonEmpty(live) then Saved(files, now, state, LivePayload(live.value)) else files
  }

  /** The snapshot directory after the pass over `states`. */
  function RefreshFiles(files: map<string, Snapshot>, now: int, model: LiveModel, states: seq<string>): (f: map<string, Snapshot>)
    ensures files.Keys <= f.Keys
    ensures f.Keys <= files.Keys + (set j | 0 <= j < |states| :: FileKey(states[j]))
    decreases |states|
  {
    if |states| == 0 then files
    else RefreshStep(RefreshFiles(files, now, model, states[..|states| - 1]), now, model, states[|states| - 1])
  }

  /** Visiting one more state applies its step to the directory so far. */
  lemma RefreshFilesNext(files: map<string, Snapshot>, now: int, model: LiveModel, states: seq<string>, i: int)
    requires 0 <= i < |states|
    ensures RefreshFiles(files, now, model, states[..i + 1])
         == RefreshStep(RefreshFiles(files, now, model, states[..i]), now, model, states[i])
  {
    assert states[..i + 1][..i] == states[..i];
  }

  /** The requests the pass over `states` sends: one for today per state, in order, or
      none at all without an API key. */
  function RefreshRequests(model: LiveModel, now: int, states: seq<string>): (r: seq<Request>)
    ensures model.hasKey ==> |r| == |states| && forall i :: 0 <= i < |states| ==> r[i] == Request(Title(states[i]), Day(now))
    ensures !model.hasKey ==> r == []
    decreases |states|
  {
    if |states| == 0 then []
    else RefreshRequests(model, now, states[..|states| - 1]) + LiveRequests(model, states[|states| - 1], Day(now))
  }

  /** One pass of `_cache_updater_worker`: nothing without a district map; otherwise every
      state, in sorted order, fetched for today and saved when the answer is non-empty.
      Returns the states visited. */
  method RefreshPass(store: SnapshotStore, api: LiveApi, districts: map<string, string>) returns (states: seq<string>)
    modifies store, api
    ensures StrictlySorted(states)
    ensures forall x :: x in states <==> x in districts.Values
    ensures store.files == RefreshFiles(old(store.files), old(store.now), api.model, states)
    ensures api.log == old(api.log) + RefreshRequests(api.model, old(store.now), states)
    ensures store.now == old(store.now)
  {
    if |districts| == 0 {
      return [];
    }
    states := SortedStates(districts);
    var today := store.now;
    ghost var files := store.files;
    var i := 0;
    while i < |states|
      invariant 0 <= i <= |states|
      invariant store.now == today
      invariant store.files == RefreshFiles(files, today, api.model, states[..i])
      invariant api.log == old(api.log) + RefreshRequests(api.model, today, states[..i])
    {
      RefreshFilesNext(files, today, api.model, states, i);
      assert states[..i + 1][..i] == states[..i];
      ghost var sent := RefreshRequests(api.model, today, states[..i]);
      var live := api.Fetch(states[i], Day(today));
      if NonEmpty(live) {
        store.Save(states[i], LivePayload(live.value));
      }
      assert api.log == old(api.log) + (sent + LiveRequests(api.model, states[i], Day(today)));
      i := i + 1;
    }
    assert states[..i] == states;
  }

  /** A state whose answer today is non-empty, and whose file no later state of the pass
      shares, ends the pass with that answer as its snapshot, stamped with the pass's time. */
  lemma {:induction false} RefreshFilesAt(files: map<string, Snapshot>, now: int, model: LiveModel, states: seq<string>, i: int)
    requires 0 <= i < |states|
    requires NonEmpty(LiveAnswer(model, states[i], Day(now)))
    requires forall j :: i < j < |states| ==> FileKey(states[j]) != FileKey(states[i])
    ensures var f := RefreshFiles(files, now, model, states);
      && FileKey(states[i]) in f
      && f[FileKey(states[i])] == Snapshot(Some(now), Some(LivePayload(LiveAnswer(model, states[i], Day(now)).value)))
    decreases |states|
  {
    var init := states[..|states| - 1];
    if i < |states| - 1 {
      assert init[i] == states[i];
      RefreshFilesAt(files, now, model, init, i);
    }
  }

  /** A file no state of the pass maps to is left as it was. */
  lemma {:induction false} RefreshKeepsOthers(files: map<string, Snapshot>, now: int, model: LiveModel, states: seq<string>, key: string)
    requires forall j :: 0 <= j < |states| ==> FileKey(states[j]) != key
    ensures var f := RefreshFiles(files, now, model, states);
      && (key in f <==> key in files)
      && (key in files ==> f[key] == files[key])
    decreases |states|
  {
    if |states| > 0 {
      var init := states[..|states| - 1];
      assert forall j :: 0 <= j < |init| ==> init[j] == states[j];
      RefreshKeepsOthers(files, now, model, init, key);
    }
  }

  /** After the pass, asking within twelve hours for a crop and district that today's
      answer for the state prices is served from the refreshed snapshot: the same price and
      note the live tier would give, not stale, with no live request and no write. */
  lemma RefreshWarmsCache(files: map<string, Snapshot>, now: int, later: int, model: LiveModel, h: Historical,
                          states: seq<string>, i: int, district: string, crop: string)
    requires 0 <= i < |states|
    requires forall j :: i < j < |states| ==> FileKey(states[j]) != FileKey(states[i])
    requires later - now <= MaxAge
    requires var live := LiveAnswer(model, states[i], Day(now));
      NonEmpty(live) && Hit(AveragePrice(LivePayload(live.value), crop, district))
    ensures var f := RefreshFiles(files, now, model, states);
      var res := Resolve(f, later, model, h, states[i], district, crop);
      var avg := AveragePrice(LivePayload(LiveAnswer(model, states[i], Day(now)).value), crop, district);
      && res.requests == [] && res.files == f
      && res.result == Priced(avg.value.price, avg.value.note, false, None)
  {
    var live := LiveAnswer(model, states[i], Day(now));
    var f := RefreshFiles(files, now, model, states);
    RefreshFilesAt(files, now, model, states, i);
    SnapshotServes(f, now, later, states[i], LivePayload(live.value), district, crop);
    CacheHitMakesNoLiveCall(f, later, model, h, states[i], district, crop);
  }

  /** A snapshot of a non-empty live answer, at most twelve hours old, is the cache tier's answer. */
  lemma SnapshotServes(f: map<string, Snapshot>, saved: int, later: int, state: string, p: Payload, district: string, crop: string)
    requires FileKey(state) in f && f[FileKey(state)] == Snapshot(Some(saved), Some(p))
    requires later - saved <= MaxAge && Truthy(p)
    ensures CacheTier(f, later, state, district, crop) == AveragePrice(p, crop, district)
  {
    assert LoadSpec(f, later, state) == Some(p);
  }

  /** What the pass writes as a state's records as written: the object
      `{"records": [...], "timestamp": "..."}` it builds, which the save wraps once more. Read
      back, it is a mapping whose two values, a list and a string, are not records. */
  const AsWrittenRefreshPayload: Payload := ItemDict([NonDict, NonDict])

  /** One state of the pass as written. */
  function AsWrittenRefreshStep(files: map<string, Snapshot>, now: int, model: LiveModel, state: string): map<string, Snapshot> {
    var live := LiveAnswer(model, state, Day(now));
    if NonEmpty(live) then Saved(files, now, state, AsWrittenRefreshPayload) else files
  }

  /** As written, a refreshed snapshot never yields a price: whatever the live answer held,
      and whatever useful snapshot it replaced, the next lookup of the state within twelve
      hours finds no price in it and goes to the live API again. */
  lemma AsWrittenRefreshNeverServes(files: map<string, Snapshot>, now: int, later: int, model: LiveModel, h: Historical,
                                    state: string, district: string, crop: string)
    requires later - now <= MaxAge
    requires NonEmpty(LiveAnswer(model, state, Day(now)))
    ensures var f := AsWrittenRefreshStep(files, now, model, state);
      && LoadSpec(f, later, state) == Some(AsWrittenRefreshPayload)
      && CacheTier(f, later, state, district, crop).None?
      && Resolve(f, later, model, h, state, district, crop).requests != []
  {
    var f := Saved(files, now, state, AsWrittenRefreshPayload);
    assert AsWrittenRefreshStep(files, now, model, state) == f;
    SaveThenLoad(files, now, later, state, state, AsWrittenRefreshPayload);
    assert Filtered([NonDict, NonDict], CropPattern(crop), Strip(Lower(district))) == [];
    assert MatchedPrices(AsWrittenRefreshPayload, crop, district) == [];
    assert AveragePrice(AsWrittenRefreshPayload, crop, district).None?;
    assert CacheTier(f, later, state, district, crop).None?;
    ResolveRequests(f, later, model, h, state, district, crop);
    assert model.hasKey;
    assert |LiveRequestsSent(model, state, later)| > 0;
  }
}
