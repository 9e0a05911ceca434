/** Filtering live market records and averaging their modal prices:
    `_get_value_from_record` and `_parse_and_average_prices` (services.py:519-572). */
module Records {
  import opened Wrappers
  import opened Text
  import opened Numbers
  import opened Commodity

  /** A market record as the live API returns it: field name to text. */
  type Record = map<string, string>

  /** An element of a records collection: a dict record, or any other JSON value. */
  datatype Item = Dict(fields: Record) | NonDict

  /** A records payload as read back from a snapshot or the API: a JSON list, a JSON
      object (given by its values, in order), or a JSON string. */
  datatype Payload = ItemList(items: seq<Item>) | ItemDict(values: seq<Item>) | JsonText(text: string)

  /** Python truthiness of a payload. */
  predicate Truthy(p: Payload) {
    match p
    case ItemList(xs) => |xs| > 0
    case ItemDict(vs) => |vs| > 0
    case JsonText(t) => |t| > 0
  }

  /** The payload a live record list is: a list of dict records. */
  function LivePayload(records: seq<Record>): Payload {
    ItemList(seq(|records|, i requires 0 <= i < |records| => Dict(records[i])))
  }

  /** `keys[i]` is the first of `keys` that the record has. */
  predicate FirstPresent(r: Record, keys: seq<string>, i: int) {
    0 <= i < |keys| && keys[i] in r && forall j :: 0 <= j < i ==> keys[j] !in r
  }

  /** `_get_value_from_record`: the value under the first of `keys` the record has,
      or the empty string when it has none of them. */
  function ValueOf(r: Record, keys: seq<string>): (v: string)
    ensures forall i :: FirstPresent(r, keys, i) ==> v == r[keys[i]]
    ensures (forall i :: 0 <= i < |keys| ==> keys[i] !in r) ==> v == ""
    decreases |keys|
  {
    if |keys| == 0 then ""
    else if keys[0] in r then r[keys[0]]
    else
      var v := ValueOf(r, keys[1..]);
      assert forall i :: FirstPresent(r, keys, i) ==> FirstPresent(r, keys[1..], i - 1);
      v
  }

  const DistrictKeys: seq<string> := ["district", "District"]
  const CommodityKeys: seq<string> := ["commodity", "Commodity"]
  const ModalPriceKeys: seq<string> := ["modal_price", "Modal Price", "Modal_Price"]

  /** `re.search(pattern, text)` for a pattern made of plain alternatives. */
  predicate MatchesAny(text: string, pattern: seq<string>) {
    exists k :: 0 <= k < |pattern| && Contains(text, pattern[k])
  }

  /** The filter of services.py:550-551: the record's lower-cased district contains the
      cleaned query district and its lower-cased commodity one of the crop's alternatives. */
  predicate Matches(r: Record, pattern: seq<string>, district: string) {
    && Contains(Lower(ValueOf(r, DistrictKeys)), district)
    && MatchesAny(Lower(ValueOf(r, CommodityKeys)), pattern)
  }

  /** `filtered_records`: the dict items that pass the filter, in order. */
  function Filtered(items: seq<Item>, pattern: seq<string>, district: string): seq<Record>
    decreases |items|
  {
    if |items| == 0 then []
    else
      var last := items[|items| - 1];
      Filtered(items[..|items| - 1], pattern, district)
        + (if last.Dict? && Matches(last.fields, pattern, district) then [last.fields] else [])
  }

  /** A record is kept exactly when it is a dict item of the input that passes the filter. */
  lemma {:induction false} FilteredIff(items: seq<Item>, pattern: seq<string>, district: string, r: Record)
    ensures r in Filtered(items, pattern, district) <==> Dict(r) in items && Matches(r, pattern, district)
    decreases |items|
  {
    if |items| > 0 {
      var init := items[..|items| - 1];
      var last := items[|items| - 1];
      FilteredIff(init, pattern, district, r);
      assert items == init + [last];
      assert Dict(r) in items <==> Dict(r) in init || Dict(r) == last;
      var kept := if last.Dict? && Matches(last.fields, pattern, district) then [last.fields] else [];
      assert Filtered(items, pattern, district) == Filtered(init, pattern, district) + kept;
      assert r in kept <==> Dict(r) == last && Matches(r, pattern, district);
    }
  }

  predicate IsDigit(c: char) { '0' <= c <= '9' }

  predicate AllDigits(s: string) {
    forall k :: 0 <= k < |s| ==> IsDigit(s[k])
  }

  /** `s.replace('.', '', 1)` */
  function DropFirstDot(s: string): string {
    match IndexOf(s, ".")
    case None => s
    case Some(i) => s[..i] + s[i + 1..]
  }

  /** `s and s.replace('.', '', 1).isdigit()`: a non-empty run of digits with at most one dot. */
  predicate IsPriceText(s: string) {
    |s| > 0 && |DropFirstDot(s)| > 0 && AllDigits(DropFirstDot(s))
  }

  /** The value of a string of decimal digits. */
  function DigitsValue(s: string): nat
    requires AllDigits(s)
    decreases |s|
  {
    if |s| == 0 then 0 else DigitsValue(s[..|s| - 1]) * 10 + (s[|s| - 1] as int - '0' as int)
  }

  /** `int(float(s))` for a price text: its whole-number part. */
  function WholePart(s: string): nat
    requires IsPriceText(s)
  {
    match IndexOf(s, ".")
    case None => DigitsValue(s)
    case Some(i) =>
      assert AllDigits(s[..i]) by {
        assert forall k :: 0 <= k < i ==> s[k] == DropFirstDot(s)[k];
      }
      DigitsValue(s[..i])
  }

  /** A string of digits has no dot. */
  lemma DigitsHaveNoDot(s: string)
    requires AllDigits(s)
    ensures IndexOf(s, ".").None?
  {
    forall j | 0 <= j < |s| ensures !OccursAt(s, ".", j) {
      assert s[j..j + 1][0] == s[j];
    }
  }

  /** The decimal text of a whole number, as the live API writes prices. */
  function DecimalText(n: nat): (s: string)
    ensures |s| > 0 && AllDigits(s)
  {
    var d := ['0' + (n % 10) as char];
    if n < 10 then d else DecimalText(n / 10) + d
  }

  lemma {:induction false} DigitsValueOfDecimalText(n: nat)
    ensures DigitsValue(DecimalText(n)) == n
  {
    if n >= 10 {
      DigitsValueOfDecimalText(n / 10);
      var s := DecimalText(n);
      assert s[..|s| - 1] == DecimalText(n / 10);
    }
  }

  /** The first dot of `w + "." + f`, for digit strings `w` and `f`, is the one between them. */
  lemma DotBetweenDigits(w: string, f: string)
    requires AllDigits(w) && AllDigits(f)
    ensures IndexOf(w + "." + f, ".") == Some(|w|)
    ensures DropFirstDot(w + "." + f) == w + f
  {
    var s := w + "." + f;
    DotAt(w, f);
    NoDotAmongDigits(w, "." + f);
    FirstOccurrence(s, ".", |w|);
  }

  /** The pieces of `w + "." + f` around its dot at `|w|`. */
  lemma DotAt(w: string, f: string)
    ensures var s := w + "." + f;
      && s == w + ("." + f) && OccursAt(s, ".", |w|) && s[..|w|] == w && s[|w| + 1..] == f
  {
    var s := w + "." + f;
    assert s[|w|..|w| + 1] == ".";
  }

  /** No dot starts among the leading digits of `w + t`. */
  lemma NoDotAmongDigits(w: string, t: string)
    requires AllDigits(w)
    ensures forall j :: 0 <= j < |w| ==> !OccursAt(w + t, ".", j)
  {
    forall j | 0 <= j < |w| ensures !OccursAt(w + t, ".", j) {
      var x := (w + t)[j..j + 1];
      assert x[0] == w[j] && IsDigit(w[j]);
      assert "."[0] == '.';
    }
  }

  /** A whole price round-trips through its text, and a fractional part is truncated:
      `int(float("2500")) == 2500` and `int(float("2500.75")) == 2500`. */
  lemma WholePartOfDecimalText(n: nat, fraction: nat)
    ensures IsPriceText(DecimalText(n)) && WholePart(DecimalText(n)) == n
    ensures var s := DecimalText(n) + "." + DecimalText(fraction);
      IsPriceText(s) && WholePart(s) == n
  {
    var w, f := DecimalText(n), DecimalText(fraction);
    DigitsValueOfDecimalText(n);
    DigitsHaveNoDot(w);
    DotBetweenDigits(w, f);
    var s := w + "." + f;
    assert AllDigits(w + f);
    assert s[..|w|] == w;
  }

  /** The price a kept record contributes: the whole part of its modal price, if valid. */
  function PriceOf(r: Record): seq<int> {
    var v := ValueOf(r, ModalPriceKeys);
    if IsPriceText(v) then [WholePart(v) as int] else []
  }

  /** Record `k` has a valid modal price whose whole part is `x`. */
  predicate PricedAs(records: seq<Record>, k: int, x: int) {
    && 0 <= k < |records|
    && IsPriceText(ValueOf(records[k], ModalPriceKeys))
    && x == WholePart(ValueOf(records[k], ModalPriceKeys)) as int
  }

  /** `prices`: the whole-number part of each kept record's valid modal price, in order.
      A number is collected exactly when some record's modal price is valid text whose
      whole part it is. */
  function Prices(records: seq<Record>): (ps: seq<int>)
    ensures |ps| <= |records|
    ensures forall k :: 0 <= k < |ps| ==> ps[k] >= 0
    ensures forall x :: x in ps <==> exists k :: PricedAs(records, k, x)
    decreases |records|
  {
    if |records| == 0 then []
    else
      var rest := Prices(records[..|records| - 1]);
      PricesSnoc(records, records[..|records| - 1], records[|records| - 1], rest);
      rest + PriceOf(records[|records| - 1])
  }

  /** One more record adds its price, if it has one, to the prices of the records before it. */
  lemma PricesSnoc(records: seq<Record>, init: seq<Record>, last: Record, rest: seq<int>)
    requires records == init + [last]
    requires forall x :: x in rest <==> exists k :: PricedAs(init, k, x)
    ensures forall x :: x in rest + PriceOf(last) <==> exists k :: PricedAs(records, k, x)
  {
    forall x
      ensures x in rest + PriceOf(last) <==> exists k :: PricedAs(records, k, x)
    {
      PricesSnocAt(records, init, last, rest, x);
    }
  }

  lemma PricesSnocAt(records: seq<Record>, init: seq<Record>, last: Record, rest: seq<int>, x: int)
    requires records == init + [last]
    requires x in rest <==> exists k :: PricedAs(init, k, x)
    ensures x in rest + PriceOf(last) <==> exists k :: PricedAs(records, k, x)
  {
    if x in rest {
      var k :| PricedAs(init, k, x);
      assert records[k] == init[k];
      assert PricedAs(records, k, x);
    } else if x in PriceOf(last) {
      assert records[|init|] == last;
      assert PricedAs(records, |init|, x);
    }
    if exists k :: PricedAs(records, k, x) {
      var k :| PricedAs(records, k, x);
      if k < |init| {
        assert records[k] == init[k];
        assert PricedAs(init, k, x);
      } else {
        assert records[k] == last;
      }
    }
  }

  /** The price and provenance note of a successful parse. */
  datatype Average = Average(price: int, note: string)

  function LiveNote(district: string): string {
    "Using live market data for " + Title(district) + "."
  }

  /** A dict payload is replaced by its values; a list is taken as it is; anything else is not a list. */
  function Flatten(p: Payload): Option<seq<Item>> {
    match p
    case ItemList(xs) => Some(xs)
    case ItemDict(vs) => Some(vs)
    case JsonText(_) => None
  }

  /** The valid prices of the records the filter keeps for a crop and a district. */
  function MatchedPrices(p: Payload, crop: string, district: string): seq<int> {
    match Flatten(p)
    case None => []
    case Some(items) => Prices(Filtered(items, CropPattern(crop), Strip(Lower(district))))
  }

  /** What `_parse_and_average_prices` returns; `None` stands for `(None, None)`. */
  function AveragePrice(p: Payload, crop: string, district: string): (r: Option<Average>)
    ensures r.Some? ==> r.value.note == LiveNote(district)
  {
    match Flatten(p)
    case None => None
    case Some(items) =>
      if |items| == 0 then None
      else
        var kept := Filtered(items, CropPattern(crop), Strip(Lower(district)));
        if |kept| == 0 then None
        else
          var prices := Prices(kept);
          if |prices| == 0 then None
          else Some(Average(RoundedMean(prices), LiveNote(district)))
  }

  /** A price comes out exactly when some kept record has a valid modal price; it is then
      the ties-to-even rounded mean of those prices, inside any bounds of them, and the
      note names the queried district. */
  lemma AveragePriceMeaning(p: Payload, crop: string, district: string, lo: int, hi: int)
    requires forall k :: 0 <= k < |MatchedPrices(p, crop, district)| ==> lo <= MatchedPrices(p, crop, district)[k] <= hi
    ensures AveragePrice(p, crop, district).Some? <==> |MatchedPrices(p, crop, district)| > 0
    ensures AveragePrice(p, crop, district).Some? ==>
      var a := AveragePrice(p, crop, district).value;
      && a.price == RoundedMean(MatchedPrices(p, crop, district))
      && lo <= a.price <= hi
      && a.note == LiveNote(district)
  {
    if |MatchedPrices(p, crop, district)| > 0 {
      MeanBetween(MatchedPrices(p, crop, district), lo, hi);
    }
  }

  /** The filtering loop of services.py:547-552. */
  method FilterRecords(items: seq<Item>, pattern: seq<string>, district: string) returns (filtered: seq<Record>)
    ensures filtered == Filtered(items, pattern, district)
  {
    filtered := [];
    var i := 0;
    while i < |items|
      invariant 0 <= i <= |items|
      invariant filtered == Filtered(items[..i], pattern, district)
    {
      assert items[..i + 1][..i] == items[..i];
      var item := items[i];
      if item.Dict? && Matches(item.fields, pattern, district) {
        filtered := filtered + [item.fields];
      }
      i := i + 1;
    }
    assert items[..i] == items;
  }

  /** The price-collecting loop of services.py:559-563. */
  method CollectPrices(records: seq<Record>) returns (prices: seq<int>)
    ensures prices == Prices(records)
  {
    prices := [];
    var j := 0;
    while j < |records|
      invariant 0 <= j <= |records|
      invariant prices == Prices(records[..j])
    {
      assert records[..j + 1][..j] == records[..j];
      assert Prices(records[..j + 1]) == Prices(records[..j]) + PriceOf(records[j]);
      var modal := ValueOf(records[j], ModalPriceKeys);
      if IsPriceText(modal) {
        prices := prices + [WholePart(modal) as int];
      }
      j := j + 1;
    }
    assert records[..j] == records;
  }

  /** `_parse_and_average_prices` */
  method ParseAndAveragePrices(p: Payload, crop: string, district: string) returns (r: Option<Average>)
    ensures r == AveragePrice(p, crop, district)
  {
    var items: seq<Item>;
    match p {
      case ItemList(xs) => items := xs;
      case ItemDict(vs) => items := vs;
      case JsonText(_) => return None;
    }
    assert Flatten(p) == Some(items);
    if |items| == 0 {
      return None;
    }
    var filtered := FilterRecords(items, CropPattern(crop), Strip(Lower(district)));
    if |filtered| == 0 {
      return None;
    }
    var prices := CollectPrices(filtered);
    if |prices| == 0 {
      return None;
    }
    assert AveragePrice(p, crop, district) == Some(Average(RoundedMean(prices), LiveNote(district)));
    r := Some(Average(RoundHalfEven(Sum(prices), |prices|), LiveNote(district)));
  }
}
