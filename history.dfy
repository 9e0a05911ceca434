/** The historical price index built once from the bulk mandi CSV (services.py:126-165),
    the historical fallback tier `_read_price_from_csv_fallback` (services.py:574-603) and
    the district-to-state lookup `find_state_from_district` (services.py:173, 182-189). */
module History {
  import opened Wrappers
  import opened Text
  import opened Numbers
  import opened Commodity

  /** A row of the bulk CSV as read: `modal` is `None` when the modal price is not numeric. */
  datatype CsvRow = CsvRow(state: string, district: string, commodity: string, modal: Option<int>, arrival: string)

  /** A row of the cleaned dataset: keys lower-cased and stripped, the commodity normalized. */
  datatype Row = Row(state: string, district: string, commodity: string, modal: int, arrival: string)

  /** `x.lower().strip()`, the cleaning every key column and every lookup key goes through. */
  function Clean(s: string): string { Strip(Lower(s)) }

  function CleanRow(r: CsvRow): Row
    requires r.modal.Some?
  {
    Row(Clean(r.state), Clean(r.district), Normalize(Clean(r.commodity)), r.modal.value, r.arrival)
  }

  /** The cleaned dataset: rows with a non-numeric modal price dropped, the rest cleaned, in order. */
  function CleanRows(rows: seq<CsvRow>): (out: seq<Row>)
    ensures |out| <= |rows|
    ensures forall j :: 0 <= j < |out| ==> IsCanonical(out[j].commodity)
    decreases |rows|
  {
    if |rows| == 0 then []
    else
      var last := rows[|rows| - 1];
      NormalizeIdempotent(Clean(last.commodity));
      CleanRows(rows[..|rows| - 1]) + (if last.modal.Some? then [CleanRow(last)] else [])
  }

  /** A cleaned row comes from a row with a numeric modal price, and every such row is kept. */
  lemma CleanRowsIff(rows: seq<CsvRow>, r: Row)
    ensures r in CleanRows(rows) <==> exists i :: 0 <= i < |rows| && rows[i].modal.Some? && CleanRow(rows[i]) == r
  {
    if r in CleanRows(rows) {
      CleanRowsSound(rows, r);
    }
    if exists i :: 0 <= i < |rows| && rows[i].modal.Some? && CleanRow(rows[i]) == r {
      var i :| 0 <= i < |rows| && rows[i].modal.Some? && CleanRow(rows[i]) == r;
      CleanRowsComplete(rows, i);
    }
  }

  lemma {:induction false} CleanRowsSound(rows: seq<CsvRow>, r: Row)
    requires r in CleanRows(rows)
    ensures exists i :: 0 <= i < |rows| && rows[i].modal.Some? && CleanRow(rows[i]) == r
    decreases |rows|
  {
    var init, last := rows[..|rows| - 1], rows[|rows| - 1];
    var tail := if last.modal.Some? then [CleanRow(last)] else [];
    assert CleanRows(rows) == CleanRows(init) + tail;
    if r in CleanRows(init) {
      CleanRowsSound(init, r);
      var i :| 0 <= i < |init| && init[i].modal.Some? && CleanRow(init[i]) == r;
      assert rows[i] == init[i];
    } else {
      assert r in tail;
      assert rows[|rows| - 1].modal.Some? && CleanRow(rows[|rows| - 1]) == r;
    }
  }

  lemma {:induction false} CleanRowsComplete(rows: seq<CsvRow>, i: int)
    requires 0 <= i < |rows| && rows[i].modal.Some?
    ensures CleanRow(rows[i]) in CleanRows(rows)
    decreases |rows|
  {
    var init, last := rows[..|rows| - 1], rows[|rows| - 1];
    var tail := if last.modal.Some? then [CleanRow(last)] else [];
    assert CleanRows(rows) == CleanRows(init) + tail;
    if i < |init| {
      assert init[i] == rows[i];
      CleanRowsComplete(init, i);
    } else {
      assert CleanRow(rows[i]) in tail;
    }
  }

  /** A key of `_HISTORICAL_PRICES`. */
  datatype PriceKey = PriceKey(state: string, district: string, commodity: string)

  /** The sentinel district under which state-wide averages are stored. */
  const StateAvg: string := "__state_avg__"

  /** The group a row belongs to: its (state, district, commodity), or, state-wide,
      its (state, `__state_avg__`, commodity). */
  function GroupKey(r: Row, stateWide: bool): PriceKey {
    if stateWide then PriceKey(r.state, StateAvg, r.commodity) else PriceKey(r.state, r.district, r.commodity)
  }

  /** The modal prices of the rows in group `k`, in order. */
  function GroupPrices(rows: seq<Row>, k: PriceKey, stateWide: bool): seq<int>
    decreases |rows|
  {
    if |rows| == 0 then []
    else
      var last := rows[|rows| - 1];
      GroupPrices(rows[..|rows| - 1], k, stateWide) + (if GroupKey(last, stateWide) == k then [last.modal] else [])
  }

  /** What `_HISTORICAL_PRICES` holds under `k` once the index is built: the rounded mean of
      the group's modal prices; a `__state_avg__` key holds the state-wide mean, which is
      stored after the district means and so replaces any district entry under that key. */
  function IndexEntry(rows: seq<Row>, k: PriceKey): Option<int> {
    var ps := GroupPrices(rows, k, k.district == StateAvg);
    if |ps| == 0 then None else Some(RoundedMean(ps))
  }

  /** `d.get(k)` */
  function Entry(index: map<PriceKey, int>, k: PriceKey): Option<int> {
    if k in index then Some(index[k]) else None
  }

  /** `index` is the historical index of `rows`. */
  ghost predicate IsIndexOf(index: map<PriceKey, int>, rows: seq<Row>) {
    forall k :: Entry(index, k) == IndexEntry(rows, k)
  }

  /** `groups` is the `groupby` of `rows` by district or state-wide key. */
  ghost predicate Grouped(groups: map<PriceKey, seq<int>>, rows: seq<Row>, stateWide: bool) {
    forall k ::
      && (k in groups <==> |GroupPrices(rows, k, stateWide)| > 0)
      && (k in groups ==> groups[k] == GroupPrices(rows, k, stateWide))
  }

  /** Adding one row to a grouping appends its price to its own group and to no other. */
  lemma GroupStep(groups: map<PriceKey, seq<int>>, rows: seq<Row>, r: Row, stateWide: bool)
    requires Grouped(groups, rows, stateWide)
    ensures var g := GroupKey(r, stateWide);
      Grouped(groups[g := (if g in groups then groups[g] else []) + [r.modal]], rows + [r], stateWide)
  {
    assert (rows + [r])[..|rows|] == rows;
  }

  /** `_MANDI_DF.groupby(...)['modal price']`: each group's prices, in row order. */
  method GroupByKey(rows: seq<Row>, stateWide: bool) returns (groups: map<PriceKey, seq<int>>)
    ensures Grouped(groups, rows, stateWide)
  {
    groups := map[];
    var i := 0;
    while i < |rows|
      invariant 0 <= i <= |rows|
      invariant Grouped(groups, rows[..i], stateWide)
    {
      GroupStep(groups, rows[..i], rows[i], stateWide);
      assert rows[..i] + [rows[i]] == rows[..i + 1];
      var g := GroupKey(rows[i], stateWide);
      groups := groups[g := (if g in groups then groups[g] else []) + [rows[i].modal]];
      i := i + 1;
    }
    assert rows[..i] == rows;
  }

  /** The loops of services.py:157-158 and 161-163: store each group's rounded mean,
      overwriting what `index` held under the same key. */
  method StoreMeans(index: map<PriceKey, int>, groups: map<PriceKey, seq<int>>) returns (out: map<PriceKey, int>)
    requires forall k :: k in groups ==> |groups[k]| > 0
    ensures out.Keys == index.Keys + groups.Keys
    ensures forall k :: k in groups ==> out[k] == RoundedMean(groups[k])
    ensures forall k :: k in index && k !in groups ==> out[k] == index[k]
  {
    out := index;
    var todo := groups.Keys;
    while todo != {}
      invariant todo <= groups.Keys
      invariant StoredExcept(out, index, groups, todo)
      decreases |todo|
    {
      var k :| k in todo;
      var mean := RoundedMean(groups[k]);
      StoreStep(out, index, groups, todo, k);
      out := out[k := mean];
      todo := todo - {k};
    }
    assert forall k :: k in groups ==> |groups[k]| > 0 && k !in todo;
  }

  /** `out` is `index` with the means of every group outside `todo` stored over it. */
  ghost predicate StoredExcept(out: map<PriceKey, int>, index: map<PriceKey, int>, groups: map<PriceKey, seq<int>>, todo: set<PriceKey>) {
    && (forall k :: k in out <==> k in index || (k in groups && k !in todo))
    && (forall k :: k in groups && k !in todo && |groups[k]| > 0 ==> out[k] == RoundedMean(groups[k]))
    && (forall k :: k in index && (k !in groups || k in todo) ==> out[k] == index[k])
  }

  /** Storing one more group's mean keeps `StoredExcept` with that group done. */
  lemma StoreStep(out: map<PriceKey, int>, index: map<PriceKey, int>, groups: map<PriceKey, seq<int>>, todo: set<PriceKey>, k: PriceKey)
    requires StoredExcept(out, index, groups, todo) && k in todo && k in groups && |groups[k]| > 0
    ensures StoredExcept(out[k := RoundedMean(groups[k])], index, groups, todo - {k})
  {
  }

  /** A row in a district group with the sentinel district is in the state group of the same key. */
  lemma {:induction false} SentinelDistrictInStateGroup(rows: seq<Row>, k: PriceKey)
    requires k.district == StateAvg && |GroupPrices(rows, k, false)| > 0
    ensures |GroupPrices(rows, k, true)| > 0
    decreases |rows|
  {
    var init := rows[..|rows| - 1];
    if |GroupPrices(init, k, false)| > 0 {
      SentinelDistrictInStateGroup(init, k);
    }
  }

  /** Only sentinel keys have state-wide groups. */
  lemma {:induction false} StateGroupsAreSentinel(rows: seq<Row>, k: PriceKey)
    requires k.district != StateAvg
    ensures GroupPrices(rows, k, true) == []
    decreases |rows|
  {
    if |rows| > 0 {
      StateGroupsAreSentinel(rows[..|rows| - 1], k);
    }
  }

  /** The index build of services.py:156-163. */
  method BuildIndex(rows: seq<Row>) returns (index: map<PriceKey, int>)
    ensures IsIndexOf(index, rows)
  {
    var districtGroups := GroupByKey(rows, false);
    index := StoreMeans(map[], districtGroups);
    var stateGroups := GroupByKey(rows, true);
    index := StoreMeans(index, stateGroups);
    forall k ensures Entry(index, k) == IndexEntry(rows, k) {
      if k.district == StateAvg {
        if |GroupPrices(rows, k, false)| > 0 {
          SentinelDistrictInStateGroup(rows, k);
        }
      } else {
        StateGroupsAreSentinel(rows, k);
      }
    }
  }

  /** The historical data the fallback tier consults: the cleaned rows and their index. */
  datatype Historical = Historical(rows: seq<Row>, index: map<PriceKey, int>)

  /** `load_datasets` for the mandi CSV: clean the rows, then build their index. */
  method LoadHistorical(csv: seq<CsvRow>) returns (h: Historical)
    ensures h.rows == CleanRows(csv) && IsIndexOf(h.index, h.rows)
  {
    var rows := CleanRows(csv);
    var index := BuildIndex(rows);
    h := Historical(rows, index);
  }

  /** Each index entry lies within any bounds of the group's prices, so between its
      smallest and its largest modal price. */
  lemma IndexEntryBetween(rows: seq<Row>, k: PriceKey, lo: int, hi: int)
    requires forall i :: 0 <= i < |rows| && GroupKey(rows[i], k.district == StateAvg) == k ==> lo <= rows[i].modal <= hi
    ensures IndexEntry(rows, k).Some? ==> lo <= IndexEntry(rows, k).value <= hi
  {
    var stateWide := k.district == StateAvg;
    GroupPricesBounded(rows, k, stateWide, lo, hi);
    if |GroupPrices(rows, k, stateWide)| > 0 {
      MeanBetween(GroupPrices(rows, k, stateWide), lo, hi);
    }
  }

  lemma {:induction false} GroupPricesBounded(rows: seq<Row>, k: PriceKey, stateWide: bool, lo: int, hi: int)
    requires forall i :: 0 <= i < |rows| && GroupKey(rows[i], stateWide) == k ==> lo <= rows[i].modal <= hi
    ensures forall j :: 0 <= j < |GroupPrices(rows, k, stateWide)| ==> lo <= GroupPrices(rows, k, stateWide)[j] <= hi
    decreases |rows|
  {
    if |rows| > 0 {
      var init := rows[..|rows| - 1];
      assert forall i :: 0 <= i < |init| ==> init[i] == rows[i];
      GroupPricesBounded(init, k, stateWide, lo, hi);
    }
  }

  /** A group is non-empty exactly when some row has its key. */
  lemma {:induction false} GroupPricesNonEmpty(rows: seq<Row>, k: PriceKey, stateWide: bool)
    ensures |GroupPrices(rows, k, stateWide)| > 0 <==> exists i :: 0 <= i < |rows| && GroupKey(rows[i], stateWide) == k
    decreases |rows|
  {
    if |rows| > 0 {
      var init := rows[..|rows| - 1];
      GroupPricesNonEmpty(init, k, stateWide);
      if exists i :: 0 <= i < |rows| && GroupKey(rows[i], stateWide) == k {
        var i :| 0 <= i < |rows| && GroupKey(rows[i], stateWide) == k;
        if i < |init| {
          assert init[i] == rows[i];
        }
      }
    }
  }

  /** The index has an entry exactly for the keys of the rows: each row's district key and
      its state-wide key, and nothing else. */
  lemma IndexKeys(rows: seq<Row>, k: PriceKey)
    ensures IndexEntry(rows, k).Some? <==>
      exists i :: 0 <= i < |rows| && (GroupKey(rows[i], false) == k || GroupKey(rows[i], true) == k)
  {
    if k.district == StateAvg {
      GroupPricesNonEmpty(rows, k, true);
      if exists i :: 0 <= i < |rows| && GroupKey(rows[i], false) == k {
        var i :| 0 <= i < |rows| && GroupKey(rows[i], false) == k;
        assert GroupKey(rows[i], true) == k;
      }
    } else {
      GroupPricesNonEmpty(rows, k, false);
    }
  }

  /** A district with an entry has a state-wide entry for the same state and commodity. */
  lemma StateCoversDistrict(rows: seq<Row>, state: string, district: string, commodity: string)
    requires IndexEntry(rows, PriceKey(state, district, commodity)).Some?
    ensures IndexEntry(rows, PriceKey(state, StateAvg, commodity)).Some?
  {
    var k := PriceKey(state, district, commodity);
    IndexKeys(rows, k);
    var i :| 0 <= i < |rows| && (GroupKey(rows[i], false) == k || GroupKey(rows[i], true) == k);
    IndexKeys(rows, PriceKey(state, StateAvg, commodity));
  }

  /** The state-wide entry is the mean over all of the state's rows, not the mean of its
      district means: two rows at 100 in one district and one at 400 in another give a
      state entry of 200, where the district means 100 and 400 would give 250. */
  lemma StateMeanIsOverRows()
    ensures var rows := [Row("s", "a", "rice", 100, "x"), Row("s", "a", "rice", 100, "x"), Row("s", "b", "rice", 400, "x")];
      && IndexEntry(rows, PriceKey("s", "a", "rice")) == Some(100)
      && IndexEntry(rows, PriceKey("s", "b", "rice")) == Some(400)
      && IndexEntry(rows, PriceKey("s", StateAvg, "rice")) == Some(200)
  {
    ExampleDistrictA();
    ExampleDistrictB();
    ExampleState();
  }

  /** Two rows of district "a" at 100 and one of district "b" at 400, all rice in state "s". */
  function ExampleRows(): seq<Row> {
    [Row("s", "a", "rice", 100, "x"), Row("s", "a", "rice", 100, "x"), Row("s", "b", "rice", 400, "x")]
  }

  lemma ExampleDistrictA()
    ensures IndexEntry(ExampleRows(), PriceKey("s", "a", "rice")) == Some(100)
  {
    ExampleGroupA();
    ExampleMeans();
  }

  lemma ExampleDistrictB()
    ensures IndexEntry(ExampleRows(), PriceKey("s", "b", "rice")) == Some(400)
  {
    ExampleGroupB();
    ExampleMeans();
  }

  lemma ExampleState()
    ensures IndexEntry(ExampleRows(), PriceKey("s", StateAvg, "rice")) == Some(200)
  {
    ExampleGroupState();
    ExampleMeans();
  }

  lemma ExampleGroupA()
    ensures GroupPrices(ExampleRows(), PriceKey("s", "a", "rice"), false) == [100, 100]
  {
    var rows, k := ExampleRows(), PriceKey("s", "a", "rice");
    assert rows[..2] == rows[..|rows| - 1];
    assert rows[..2][..1] == rows[..1];
    assert rows[..1][..0] == [];
    assert GroupPrices(rows[..1], k, false) == [100];
    assert GroupPrices(rows[..2], k, false) == [100, 100];
  }

  lemma ExampleGroupB()
    ensures GroupPrices(ExampleRows(), PriceKey("s", "b", "rice"), false) == [400]
  {
    var rows, k := ExampleRows(), PriceKey("s", "b", "rice");
    assert rows[..2] == rows[..|rows| - 1];
    assert rows[..2][..1] == rows[..1];
    assert rows[..1][..0] == [];
    assert GroupPrices(rows[..1], k, false) == [];
    assert GroupPrices(rows[..2], k, false) == [];
  }

  lemma ExampleGroupState()
    ensures GroupPrices(ExampleRows(), PriceKey("s", StateAvg, "rice"), true) == [100, 100, 400]
  {
    var rows, k := ExampleRows(), PriceKey("s", StateAvg, "rice");
    assert rows[..2] == rows[..|rows| - 1];
    assert rows[..2][..1] == rows[..1];
    assert rows[..1][..0] == [];
    assert GroupPrices(rows[..1], k, true) == [100];
    assert GroupPrices(rows[..2], k, true) == [100, 100];
  }

  /** The rounded means of the example groups. */
  lemma ExampleMeans()
    ensures RoundedMean([100, 100]) == 100 && RoundedMean([400]) == 400 && RoundedMean([100, 100, 400]) == 200
  {
    assert [100, 100][..1] == [100];
    assert [100, 100, 400][..2] == [100, 100];
    assert Sum([100, 100]) == 200;
    assert Sum([100, 100, 400]) == 600;
  }

  /** The date a stale historical price is reported with when no row gives one. */
  const PriorDate: string := "a prior date"

  /** The arrival date of the first row in group `k`, if any (`record.iloc[0]['arrival_date']`). */
  function FirstArrival(rows: seq<Row>, k: PriceKey, stateWide: bool): (a: Option<string>)
    ensures a.Some? ==> exists i :: FirstOfGroup(rows, k, stateWide, i) && rows[i].arrival == a.value
    ensures a.None? ==> forall i :: 0 <= i < |rows| ==> GroupKey(rows[i], stateWide) != k
    decreases |rows|
  {
    if |rows| == 0 then None
    else if GroupKey(rows[0], stateWide) == k then Some(rows[0].arrival)
    else
      var rest := FirstArrival(rows[1..], k, stateWide);
      assert forall i :: 1 <= i < |rows| ==> rows[1..][i - 1] == rows[i];
      if rest.Some? then
        var i :| FirstOfGroup(rows[1..], k, stateWide, i) && rows[1..][i].arrival == rest.value;
        assert FirstOfGroup(rows, k, stateWide, i + 1);
        rest
      else rest
  }

  /** Row `i` is the first row of group `k`. */
  predicate FirstOfGroup(rows: seq<Row>, k: PriceKey, stateWide: bool, i: int) {
    && 0 <= i < |rows| && GroupKey(rows[i], stateWide) == k
    && forall j :: 0 <= j < i ==> GroupKey(rows[j], stateWide) != k
  }

  /** A historical price with its provenance note and the date it dates from. */
  datatype HistoricalPrice = HistoricalPrice(price: int, note: string, staleDate: string)

  /** The phrases that tell a district-level and a state-level historical note apart. */
  const HistoricalMarker: string := "Using historical data"
  const StateLevelMarker: string := "using state-level"

  function DistrictNote(district: string): string {
    HistoricalMarker + " for " + Title(district) + "."
  }

  function StateNote(district: string): string {
    "Could not find data for " + Title(district) + ", " + StateLevelMarker + " historical average."
  }

  /** `_read_price_from_csv_fallback`; `None` stands for `(None, None, None)`. */
  function Fallback(h: Historical, state: string, crop: string, district: string): (r: Option<HistoricalPrice>)
    ensures r.Some? ==> r.value.price != 0
  {
    if |h.index| == 0 then None
    else
      var s, d, c := Clean(state), Clean(district), Clean(crop);
      var districtKey, stateKey := PriceKey(s, d, c), PriceKey(s, StateAvg, c);
      var staleDate := FirstArrival(h.rows, districtKey, false).GetOr(PriorDate);
      if districtKey in h.index && h.index[districtKey] != 0 then
        Some(HistoricalPrice(h.index[districtKey], DistrictNote(district), staleDate))
      else if stateKey in h.index && h.index[stateKey] != 0 then
        Some(HistoricalPrice(h.index[stateKey], StateNote(district), FirstArrival(h.rows, stateKey, true).GetOr(staleDate)))
      else None
  }

  /** A historical answer's note is the district note or the state-level note. */
  lemma FallbackNote(h: Historical, state: string, crop: string, district: string)
    ensures var r := Fallback(h, state, crop, district);
      r.Some? ==> r.value.note == DistrictNote(district) || r.value.note == StateNote(district)
  {
    if |h.index| > 0 {
      var s, d, c := Clean(state), Clean(district), Clean(crop);
      var districtKey, stateKey := PriceKey(s, d, c), PriceKey(s, StateAvg, c);
      if !(districtKey in h.index && h.index[districtKey] != 0) && !(stateKey in h.index && h.index[stateKey] != 0) {
        assert Fallback(h, state, crop, district).None?;
      }
    }
  }

  /** Over a built index, the fallback answers with the district's rounded mean when it is
      non-zero, and otherwise with the state-wide rounded mean when that is non-zero; the
      note says which; a zero mean counts as missing; the stale date is the arrival date of
      the first row of the group that answered. */
  lemma FallbackMeaning(h: Historical, state: string, crop: string, district: string)
    requires IsIndexOf(h.index, h.rows)
    ensures var s, d, c := Clean(state), Clean(district), Clean(crop);
      var dm, sm := IndexEntry(h.rows, PriceKey(s, d, c)), IndexEntry(h.rows, PriceKey(s, StateAvg, c));
      var r := Fallback(h, state, crop, district);
      && (dm.Some? && dm.value != 0 ==> r == Some(HistoricalPrice(dm.value, DistrictNote(district), r.value.staleDate)))
      && (!(dm.Some? && dm.value != 0) && sm.Some? && sm.value != 0 ==>
            r == Some(HistoricalPrice(sm.value, StateNote(district), r.value.staleDate)))
      && (!(dm.Some? && dm.value != 0) && !(sm.Some? && sm.value != 0) ==> r.None?)
      && (r.Some? ==> r.value.price != 0)
      && (d != StateAvg && dm.Some? && dm.value != 0 ==> FirstArrival(h.rows, PriceKey(s, d, c), false) == Some(r.value.staleDate))
      && (!(dm.Some? && dm.value != 0) && sm.Some? && sm.value != 0 ==>
            FirstArrival(h.rows, PriceKey(s, StateAvg, c), true) == Some(r.value.staleDate))
  {
    var s, d, c := Clean(state), Clean(district), Clean(crop);
    var dk, sk := PriceKey(s, d, c), PriceKey(s, StateAvg, c);
    if |h.rows| > 0 {
      IndexOfRowsNonEmpty(h);
    }
    assert Entry(h.index, dk) == IndexEntry(h.rows, dk);
    assert Entry(h.index, sk) == IndexEntry(h.rows, sk);
    FallbackDates(h, state, crop, district);
  }

  /** The stale date of a historical answer over a built index is the arrival date of the
      first row of the group that answered. */
  lemma FallbackDates(h: Historical, state: string, crop: string, district: string)
    requires IsIndexOf(h.index, h.rows)
    ensures var dk, sk := PriceKey(Clean(state), Clean(district), Clean(crop)), PriceKey(Clean(state), StateAvg, Clean(crop));
      var r := Fallback(h, state, crop, district);
      && (dk.district != StateAvg && dk in h.index && h.index[dk] != 0 ==> FirstArrival(h.rows, dk, false) == Some(r.value.staleDate))
      && (!(dk in h.index && h.index[dk] != 0) && sk in h.index && h.index[sk] != 0 ==>
            FirstArrival(h.rows, sk, true) == Some(r.value.staleDate))
  {
    var dk, sk := PriceKey(Clean(state), Clean(district), Clean(crop)), PriceKey(Clean(state), StateAvg, Clean(crop));
    assert Entry(h.index, dk) == IndexEntry(h.rows, dk);
    assert Entry(h.index, sk) == IndexEntry(h.rows, sk);
    GroupHasFirstArrival(h.rows, dk, false);
    GroupHasFirstArrival(h.rows, sk, true);
    var date := FirstArrival(h.rows, dk, false).GetOr(PriorDate);
    if dk in h.index && h.index[dk] != 0 {
      assert dk.district != StateAvg ==> |GroupPrices(h.rows, dk, false)| > 0;
      assert Fallback(h, state, crop, district) == Some(HistoricalPrice(h.index[dk], DistrictNote(district), date));
    } else if sk in h.index && h.index[sk] != 0 {
      assert Fallback(h, state, crop, district) ==
        Some(HistoricalPrice(h.index[sk], StateNote(district), FirstArrival(h.rows, sk, true).GetOr(date)));
    }
  }

  /** A district named like the sentinel itself finds the state-wide mean, labelled as the
      district's, and with no row of that district dated "a prior date". */
  lemma SentinelDistrictGetsStateMean(h: Historical, state: string, crop: string, district: string)
    requires Clean(district) == StateAvg
    requires forall i :: 0 <= i < |h.rows| ==> h.rows[i].district != StateAvg
    requires var sk := PriceKey(Clean(state), StateAvg, Clean(crop)); sk in h.index && h.index[sk] != 0
    ensures Fallback(h, state, crop, district) ==
      Some(HistoricalPrice(h.index[PriceKey(Clean(state), StateAvg, Clean(crop))], DistrictNote(district), PriorDate))
  {
    var dk := PriceKey(Clean(state), Clean(district), Clean(crop));
    assert forall i :: 0 <= i < |h.rows| ==> GroupKey(h.rows[i], false) != dk;
    assert FirstArrival(h.rows, dk, false).None?;
  }

  /** The index of some rows is not empty. */
  lemma IndexOfRowsNonEmpty(h: Historical)
    requires IsIndexOf(h.index, h.rows) && |h.rows| > 0
    ensures |h.index| > 0
  {
    var k := GroupKey(h.rows[0], false);
    assert Entry(h.index, k) == IndexEntry(h.rows, k);
    GroupPricesNonEmpty(h.rows, k, k.district == StateAvg);
    if k.district == StateAvg {
      assert GroupKey(h.rows[0], true) == k;
    }
    assert k in h.index;
  }

  /** A group with prices has a first row, and so an arrival date. */
  lemma GroupHasFirstArrival(rows: seq<Row>, k: PriceKey, stateWide: bool)
    ensures |GroupPrices(rows, k, stateWide)| > 0 ==> FirstArrival(rows, k, stateWide).Some?
  {
    GroupPricesNonEmpty(rows, k, stateWide);
  }

  /** The query crop is cleaned but not alias-normalized: asking for an alias such as
      "Paddy" or "corn" never finds a historical price, since every indexed commodity is
      canonical. */
  lemma AliasQueryMissesHistory(csv: seq<CsvRow>, h: Historical, state: string, crop: string, district: string)
    requires h.rows == CleanRows(csv) && IsIndexOf(h.index, h.rows)
    requires !IsCanonical(Clean(crop))
    ensures Fallback(h, state, crop, district).None?
  {
    var s, d, c := Clean(state), Clean(district), Clean(crop);
    forall k: PriceKey | k.commodity == c ensures k !in h.index {
      assert Entry(h.index, k) == IndexEntry(h.rows, k);
      GroupPricesNonEmpty(h.rows, k, k.district == StateAvg);
    }
    assert PriceKey(s, d, c) !in h.index;
    assert PriceKey(s, StateAvg, c) !in h.index;
  }

  /** The lower-cased entries of `district_to_state.json`: `{k.lower(): v}`, a later entry
      replacing an earlier one whose key lower-cases alike. */
  function DistrictMapOf(entries: seq<(string, string)>): map<string, string>
    decreases |entries|
  {
    if |entries| == 0 then map[]
    else
      var last := entries[|entries| - 1];
      DistrictMapOf(entries[..|entries| - 1])[Lower(last.0) := last.1]
  }

  /** The map holds a key exactly when some entry lower-cases to it, and then the value of
      the last such entry. */
  lemma {:induction false} DistrictMapLookup(entries: seq<(string, string)>, key: string)
    ensures key in DistrictMapOf(entries) <==> exists i :: 0 <= i < |entries| && Lower(entries[i].0) == key
    ensures key in DistrictMapOf(entries) ==>
      exists i :: && 0 <= i < |entries| && Lower(entries[i].0) == key
                  && DistrictMapOf(entries)[key] == entries[i].1
                  && forall j :: i < j < |entries| ==> Lower(entries[j].0) != key
    decreases |entries|
  {
    if |entries| > 0 {
      var init := entries[..|entries| - 1];
      DistrictMapLookup(init, key);
      assert forall i :: 0 <= i < |init| ==> init[i] == entries[i];
    }
  }

  /** `find_state_from_district` on the map of `district_to_state.json`: the lookup is
      insensitive to case and surrounding whitespace, and finds the state of the last entry
      whose lower-cased name is the cleaned district, unless that state is empty. */
  lemma FindStateFromEntries(entries: seq<(string, string)>, district: string)
    ensures var r := FindState(DistrictMapOf(entries), district);
      && (r.Some? <==> exists i :: LastEntryFor(entries, Clean(district), i) && entries[i].1 != "")
      && (forall i :: LastEntryFor(entries, Clean(district), i) && entries[i].1 != "" ==> r == Some(entries[i].1))
  {
    var key := Clean(district);
    DistrictMapLookup(entries, key);
    if key in DistrictMapOf(entries) {
      var i :| && 0 <= i < |entries| && Lower(entries[i].0) == key
               && DistrictMapOf(entries)[key] == entries[i].1
               && forall j :: i < j < |entries| ==> Lower(entries[j].0) != key;
      assert LastEntryFor(entries, key, i);
      forall i' | LastEntryFor(entries, key, i')
        ensures i' == i
      {
        assert !(i < i') && !(i' < i);
      }
    }
  }

  /** Entry `i` is the last whose lower-cased name is `key`. */
  predicate LastEntryFor(entries: seq<(string, string)>, key: string, i: int) {
    && 0 <= i < |entries| && Lower(entries[i].0) == key
    && forall j :: i < j < |entries| ==> Lower(entries[j].0) != key
  }

  /** `find_state_from_district`: the state of the cleaned district name, when there is one
      and it is not empty. */
  function FindState(m: map<string, string>, district: string): Option<string> {
    var key := Clean(district);
    if key in m && m[key] != "" then Some(m[key]) else None
  }
}
