/** The pure parts of services/cryptoService.ts: the coin-id normalisation
    used before fetching a coin's details, the chart query string, and the
    historical volatility of a price series. The fetch calls themselves are
    not part of this model. */
module CryptoService {
  import opened Wrappers
  import Ascii
  import RealFacts

  // ---------------------------------------------------------------------------
  // Coin-id normalisation

  /** COIN_ID_MAP: ticker symbol (lower case) to the market-data API's coin id. */
  const CoinIdMap: map<string, string> :=
    map["btc" := "bitcoin", "eth" := "ethereum", "sol" := "solana", "ada" := "cardano"]

  /** The id `getDetailedCoinData` requests: the mapped name when the
      lower-cased symbol is a key of COIN_ID_MAP, otherwise the id exactly as
      given (not lower-cased). Only the map's own keys are consulted. */
  function MapCoinId(coinId: string): (id: string)
    ensures id in CoinIdMap.Values || id == coinId
    ensures id != coinId ==> Ascii.ToLower(coinId) in CoinIdMap
  {
    var key := Ascii.ToLower(coinId);
    if key in CoinIdMap then CoinIdMap[key] else coinId
  }

  /** The four known symbols are recognised in any letter case. */
  lemma MapCoinIdKnownSymbols(coinId: string)
    ensures Ascii.ToLower(coinId) == "btc" ==> MapCoinId(coinId) == "bitcoin"
    ensures Ascii.ToLower(coinId) == "eth" ==> MapCoinId(coinId) == "ethereum"
    ensures Ascii.ToLower(coinId) == "sol" ==> MapCoinId(coinId) == "solana"
    ensures Ascii.ToLower(coinId) == "ada" ==> MapCoinId(coinId) == "cardano"
    ensures Ascii.ToLower(coinId) !in CoinIdMap ==> MapCoinId(coinId) == coinId
  {
  }

  /** Ids that differ only in letter case map to the same known coin. */
  lemma MapCoinIdCaseInsensitive(a: string, b: string)
    requires Ascii.ToLower(a) == Ascii.ToLower(b)
    requires Ascii.ToLower(a) in CoinIdMap
    ensures MapCoinId(a) == MapCoinId(b)
  {
  }

  /** Mapping an already mapped id changes nothing: no API coin id is also a
      ticker symbol of the map. */
  lemma {:induction false} MapCoinIdIdempotent(coinId: string)
    ensures MapCoinId(MapCoinId(coinId)) == MapCoinId(coinId)
  {
    var id := MapCoinId(coinId);
    if id != coinId {
      var lowered := Ascii.ToLower(id);
      assert id in CoinIdMap.Values;
      Ascii.ToLowerOfLower(id);
      assert lowered == id;
      assert |id| > 3;
    }
  }

  // As written, `COIN_ID_MAP[key]` is a property read on an ordinary object,
  // which also finds the members inherited from Object.prototype.

  /** A JavaScript value that a property read can produce here. */
  datatype JsValue = Undefined | Str(s: string) | NativeFunction(name: string) | ObjectPrototype

  /** The members of Object.prototype, with the value a read of each yields. */
  const ObjectPrototypeMembers: map<string, JsValue> := map[
    "constructor" := NativeFunction("Object"),
    "__proto__" := ObjectPrototype,
    "hasOwnProperty" := NativeFunction("hasOwnProperty"),
    "isPrototypeOf" := NativeFunction("isPrototypeOf"),
    "propertyIsEnumerable" := NativeFunction("propertyIsEnumerable"),
    "toLocaleString" := NativeFunction("toLocaleString"),
    "toString" := NativeFunction("toString"),
    "valueOf" := NativeFunction("valueOf"),
    "__defineGetter__" := NativeFunction("__defineGetter__"),
    "__defineSetter__" := NativeFunction("__defineSetter__"),
    "__lookupGetter__" := NativeFunction("__lookupGetter__"),
    "__lookupSetter__" := NativeFunction("__lookupSetter__")]

  /** A property read on the map object: an own property first, then the
      prototype chain. */
  function GetProperty(key: string): (v: JsValue)
    ensures v.Str? <==> key in CoinIdMap
    ensures v.Undefined? <==> key !in CoinIdMap && key !in ObjectPrototypeMembers
  {
    if key in CoinIdMap then Str(CoinIdMap[key])
    else if key in ObjectPrototypeMembers then ObjectPrototypeMembers[key]
    else Undefined
  }

  /** JavaScript truthiness of these values. */
  predicate Truthy(v: JsValue) {
    match v
    case Undefined => false
    case Str(s) => s != ""
    case NativeFunction(_) => true
    case ObjectPrototype => true
  }

  /** How a template literal turns the value into text. */
  function ToJsString(v: JsValue): string {
    match v
    case Undefined => "undefined"
    case Str(s) => s
    case NativeFunction(name) => "function " + name + "() { [native code] }"
    case ObjectPrototype => "[object Object]"
  }

  /** A read of the map object is falsy only when nothing is found: no id
      of COIN_ID_MAP is empty, and functions and objects are truthy. */
  lemma FalsyOnlyWhenAbsent(key: string)
    ensures !Truthy(GetProperty(key)) <==> GetProperty(key) == Undefined
  {
  }

  /** The id as the service computes it: a property read with the
      lower-cased id, falling back to the id itself when the read is falsy. */
  function MappedIdAsWritten(coinId: string): (id: string)
    ensures Ascii.ToLower(coinId) in CoinIdMap ==> id == CoinIdMap[Ascii.ToLower(coinId)]
  {
    var v := GetProperty(Ascii.ToLower(coinId));
    if Truthy(v) then ToJsString(v) else coinId
  }

  /** The id "constructor" is neither kept nor mapped to a coin: the request
      goes out for the text of a function. */
  lemma ConstructorKeyAsWritten()
    ensures MappedIdAsWritten("constructor") == "function Object() { [native code] }"
    ensures MapCoinId("constructor") == "constructor"
  {
    ConstructorKeyRead();
    assert ToJsString(NativeFunction("Object")) == "function Object() { [native code] }";
  }

  /** "constructor" is its own lower case, is no key of the map, and reads
      the Object function from the prototype. */
  lemma ConstructorKeyRead()
    ensures Ascii.ToLower("constructor") == "constructor"
    ensures "constructor" !in CoinIdMap
    ensures GetProperty("constructor") == NativeFunction("Object")
  {
    var key := "constructor";
    assert Ascii.ToLower(key) == key by {
      Ascii.ToLowerOfLower(key);
    }
    assert key !in CoinIdMap;
  }

  /** The id "__proto__" reads Object.prototype itself: the request goes out
      for "[object Object]". */
  lemma ProtoKeyAsWritten()
    ensures MappedIdAsWritten("__proto__") == "[object Object]"
    ensures MapCoinId("__proto__") == "__proto__"
  {
    var key := "__proto__";
    assert Ascii.ToLower(key) == key by {
      Ascii.ToLowerOfLower(key);
    }
    assert key !in CoinIdMap;
    assert GetProperty(key) == ObjectPrototype;
  }

  /** The other inherited members have a capital letter in their name, which
      a lower-cased key never has; so those two keys are the only inputs on
      which the lookup as written and the own-key lookup differ. */
  lemma AsWrittenAgreesOtherwise(coinId: string)
    requires Ascii.ToLower(coinId) != "constructor" && Ascii.ToLower(coinId) != "__proto__"
    ensures MappedIdAsWritten(coinId) == MapCoinId(coinId)
  {
    LowerKeysNotInherited(Ascii.ToLower(coinId));
  }

  /** Of the inherited member names, only "constructor" and "__proto__" have
      no capital letter. */
  lemma LowerKeysNotInherited(key: string)
    requires forall i :: 0 <= i < |key| ==> !Ascii.IsUpperLetter(key[i])
    ensures key in ObjectPrototypeMembers ==> key == "constructor" || key == "__proto__"
  {
    assert Ascii.IsUpperLetter("hasOwnProperty"[3]);
    assert Ascii.IsUpperLetter("isPrototypeOf"[2]);
    assert Ascii.IsUpperLetter("propertyIsEnumerable"[8]);
    assert Ascii.IsUpperLetter("toLocaleString"[2]);
    assert Ascii.IsUpperLetter("toString"[2]);
    assert Ascii.IsUpperLetter("valueOf"[5]);
    assert Ascii.IsUpperLetter("__defineGetter__"[8]);
    assert Ascii.IsUpperLetter("__defineSetter__"[8]);
    assert Ascii.IsUpperLetter("__lookupGetter__"[8]);
    assert Ascii.IsUpperLetter("__lookupSetter__"[8]);
  }

  // ---------------------------------------------------------------------------
  // Request URLs

  const ApiBase: string := "https://api.coingecko.com/api/v3"

  const DetailQuery: string :=
    "?localization=false&tickers=false&market_data=true&community_data=false&developer_data=false&sparkline=false"

  /** The details URL for an API coin id. */
  function DetailUrl(id: string): string {
    ApiBase + "/coins/" + id + DetailQuery
  }

  /** Two details URLs are equal exactly when their ids are: the id is the
      only variable part, and the text around it is fixed. */
  lemma DetailUrlInjective(a: string, b: string)
    ensures DetailUrl(a) == DetailUrl(b) <==> a == b
  {
    var pre := ApiBase + "/coins/";
    if DetailUrl(a) == DetailUrl(b) {
      assert |a| == |b|;
      assert DetailUrl(a)[|pre|..|pre| + |a|] == a;
      assert DetailUrl(b)[|pre|..|pre| + |b|] == b;
    }
  }

  /** The URL `getDetailedCoinData` requests, with the id computed as the
      service computes it (the inherited-member lookup included). */
  function CoinDetailUrl(coinId: string): string {
    DetailUrl(MappedIdAsWritten(coinId))
  }

  /** The details URL with the corrected, own-key lookup. */
  function CorrectedCoinDetailUrl(coinId: string): string {
    DetailUrl(MapCoinId(coinId))
  }

  /** Two ids request the same details URL exactly when the service maps
      them to the same API id. */
  lemma CoinDetailUrlInjective(a: string, b: string)
    ensures CoinDetailUrl(a) == CoinDetailUrl(b) <==> MappedIdAsWritten(a) == MappedIdAsWritten(b)
  {
    DetailUrlInjective(MappedIdAsWritten(a), MappedIdAsWritten(b));
  }

  /** With the corrected lookup, two ids request the same details URL
      exactly when they normalise to the same API id. */
  lemma CorrectedCoinDetailUrlInjective(a: string, b: string)
    ensures CorrectedCoinDetailUrl(a) == CorrectedCoinDetailUrl(b) <==> MapCoinId(a) == MapCoinId(b)
  {
    DetailUrlInjective(MapCoinId(a), MapCoinId(b));
  }

  /** The requested URL and the corrected one differ only for the ids that
      lower-case to "constructor" or "__proto__". */
  lemma CoinDetailUrlCorrectedOtherwise(coinId: string)
    requires Ascii.ToLower(coinId) != "constructor" && Ascii.ToLower(coinId) != "__proto__"
    ensures CoinDetailUrl(coinId) == CorrectedCoinDetailUrl(coinId)
  {
    AsWrittenAgreesOtherwise(coinId);
  }

  /** The id "constructor" requests the details of a coin named after the
      text of a function, where the corrected lookup requests "constructor". */
  lemma ConstructorDetailUrl()
    ensures CoinDetailUrl("constructor") == DetailUrl("function Object() { [native code] }")
    ensures CorrectedCoinDetailUrl("constructor") == DetailUrl("constructor")
  {
    ConstructorKeyAsWritten();
  }

  /** Everything of the chart URL up to and including "days=". */
  function ChartPrefix(coinId: string): string {
    ApiBase + "/coins/" + coinId + "/market_chart?" + "vs_currency=usd&days="
  }

  /** JavaScript truthiness of the optional interval: present and non-empty. */
  predicate IntervalGiven(interval: Option<string>) {
    interval.Some? && interval.value != ""
  }

  /** The URL `getChartData` requests. */
  function ChartUrl(coinId: string, days: string, interval: Option<string>): (url: string)
    ensures IntervalGiven(interval) ==> url == ChartPrefix(coinId) + days + "&interval=" + interval.value
    ensures !IntervalGiven(interval) ==> url == ChartPrefix(coinId) + days
  {
    ChartPrefix(coinId) + days + (if IntervalGiven(interval) then "&interval=" + interval.value else "")
  }

  /** The longest prefix without `c`. */
  function UpTo(s: string, c: char): (p: string)
    ensures p <= s && c !in p
    ensures |p| < |s| ==> s[|p|] == c
  {
    if s == [] || s[0] == c then [] else [s[0]] + UpTo(s[1..], c)
  }

  lemma {:induction false} UpToStops(p: string, tail: string, c: char)
    requires c !in p
    requires tail == [] || tail[0] == c
    ensures UpTo(p + tail, c) == p
  {
    if p != [] {
      assert (p + tail)[1..] == p[1..] + tail;
      UpToStops(p[1..], tail, c);
    }
  }

  /** Reads back the days and the interval from a chart URL for a coin. */
  function ParseChartUrl(coinId: string, url: string): Option<(string, Option<string>)> {
    var pre := ChartPrefix(coinId);
    if !(pre <= url) then None
    else
      var rest := url[|pre|..];
      var days := UpTo(rest, '&');
      var after := rest[|days|..];
      if after == [] then Some((days, None))
      else if "&interval=" <= after then Some((days, Some(after[|"&interval="|..])))
      else None
  }

  /** The chart URL is read back to its days and its interval, with an empty
      interval read as none: "&interval=" is in the query exactly when the
      interval is truthy. */
  lemma ChartUrlRoundTrip(coinId: string, days: string, interval: Option<string>)
    requires '&' !in days
    ensures ParseChartUrl(coinId, ChartUrl(coinId, days, interval))
         == Some((days, if IntervalGiven(interval) then interval else None))
  {
    var pre := ChartPrefix(coinId);
    var tail := if IntervalGiven(interval) then "&interval=" + interval.value else "";
    assert ChartUrl(coinId, days, interval) == pre + (days + tail);
    PrefixThenRest(pre, days + tail);
    UpToStops(days, tail, '&');
    PrefixThenRest(days, tail);
    if IntervalGiven(interval) {
      PrefixThenRest("&interval=", interval.value);
    }
  }

  /** A prefix is recognised and cut off again. */
  lemma PrefixThenRest(p: string, rest: string)
    ensures p <= p + rest && (p + rest)[|p|..] == rest
  {
  }

  /** The URL `getChartData` requests when no days are passed: the days
      default to "1", and that is what the URL reads back as. */
  function DefaultChartUrl(coinId: string, interval: Option<string>): (url: string)
    ensures ParseChartUrl(coinId, url) == Some(("1", if IntervalGiven(interval) then interval else None))
  {
    ChartUrlRoundTrip(coinId, "1", interval);
    ChartUrl(coinId, "1", interval)
  }

  // ---------------------------------------------------------------------------
  // Volatility

  /** A `[timestamp, value]` pair of the API's history arrays. */
  type PricePoint = (real, real)

  /** Every value that `calculateVolatility` divides by is non-zero
      (otherwise JavaScript gives an infinity or NaN). */
  predicate NoZeroDivisor(prices: seq<PricePoint>) {
    forall i :: 0 <= i < |prices| - 1 ==> prices[i].1 != 0.0
  }

  /** Period-over-period fractional changes of the value column. */
  function Returns(prices: seq<PricePoint>): (r: seq<real>)
    requires NoZeroDivisor(prices)
    ensures |prices| >= 1 ==> |r| == |prices| - 1
    ensures |prices| == 0 ==> r == []
  {
    if |prices| == 0 then []
    else seq(|prices| - 1, i requires 0 <= i < |prices| - 1 => (prices[i + 1].1 - prices[i].1) / prices[i].1)
  }

  function Sum(xs: seq<real>): real {
    if xs == [] then 0.0 else xs[0] + Sum(xs[1..])
  }

  /** `reduce((a, b) => a + b, 0)` adds from the left; the sum is the same. */
  lemma {:induction false} SumAppend(xs: seq<real>, x: real)
    ensures Sum(xs + [x]) == Sum(xs) + x
  {
    if xs != [] {
      assert (xs + [x])[1..] == xs[1..] + [x];
      SumAppend(xs[1..], x);
    }
  }

  function Mean(xs: seq<real>): (m: real)
    requires |xs| > 0
    ensures m * |xs| as real == Sum(xs)
  {
    Sum(xs) / |xs| as real
  }

  /** A square is non-negative. */
  lemma SquareNonNegative(x: real)
    ensures x * x >= 0.0
  {
    if x > 0.0 {
      RealFacts.MulPositive(x, x);
    } else if x < 0.0 {
      var y := -x;
      RealFacts.MulPositive(y, y);
      assert y * y == x * x;
    }
  }

  /** The non-negative square root is unique. */
  lemma SquareRootUnique(v: real, w: real)
    requires v >= 0.0 && w >= 0.0 && v * v == w * w
    ensures v == w
  {
    if v < w {
      assert w * w - v * v == (w - v) * (w + v);
      RealFacts.MulPositive(w - v, w + v);
    } else if w < v {
      assert v * v - w * w == (v - w) * (v + w);
      RealFacts.MulPositive(v - w, v + w);
    }
  }

  /** The sum of the squared distances from `m`. */
  function SumSquaredDeviations(xs: seq<real>, m: real): real {
    if xs == [] then 0.0 else (xs[0] - m) * (xs[0] - m) + SumSquaredDeviations(xs[1..], m)
  }

  lemma {:induction false} DeviationsNonNegative(xs: seq<real>, m: real)
    ensures SumSquaredDeviations(xs, m) >= 0.0
  {
    if xs != [] {
      DeviationsNonNegative(xs[1..], m);
      SquareNonNegative(xs[0] - m);
    }
  }

  /** Population variance: the squared deviations averaged over all values. */
  function Variance(xs: seq<real>): (v: real)
    requires |xs| > 0
    ensures v >= 0.0
  {
    DeviationsNonNegative(xs, Mean(xs));
    SumSquaredDeviations(xs, Mean(xs)) / |xs| as real
  }

  /** The square of what `calculateVolatility` returns: 0 for fewer than two
      points, the variance of the returns otherwise, and `None` where a
      division by zero makes the JavaScript result an infinity or NaN. */
  function SquaredVolatility(prices: seq<PricePoint>): (v: Option<real>)
    ensures |prices| < 2 ==> v == Some(0.0)
    ensures v.None? <==> |prices| >= 2 && !NoZeroDivisor(prices)
    ensures v.Some? ==> v.value >= 0.0
  {
    if |prices| < 2 then Some(0.0)
    else if !NoZeroDivisor(prices) then None
    else Some(Variance(Returns(prices)))
  }

  /** `v` is what `calculateVolatility(prices)` returns: the non-negative
      square root of the squared volatility. */
  ghost predicate IsVolatility(prices: seq<PricePoint>, v: real) {
    SquaredVolatility(prices) == Some(v * v) && v >= 0.0
  }

  /** The characterisation determines the volatility. */
  lemma VolatilityUnique(prices: seq<PricePoint>, v: real, w: real)
    requires IsVolatility(prices, v) && IsVolatility(prices, w)
    ensures v == w
  {
    SquareRootUnique(v, w);
  }

  /** Fewer than two points: the volatility is 0. */
  lemma ShortSeriesVolatility(prices: seq<PricePoint>, v: real)
    requires |prices| < 2
    ensures IsVolatility(prices, v) <==> v == 0.0
  {
    if IsVolatility(prices, v) {
      VolatilityUnique(prices, v, 0.0);
    }
  }

  /** The divisor of the variance is the number of returns, one less than the
      number of points (a population variance, not a sample variance). */
  lemma PopulationVariance(prices: seq<PricePoint>)
    requires |prices| >= 2 && NoZeroDivisor(prices)
    ensures var r := Returns(prices);
      SquaredVolatility(prices) == Some(SumSquaredDeviations(r, Mean(r)) / (|prices| - 1) as real)
  {
  }

  /** Only the value column is read: series with the same values, whatever
      their timestamps, have the same volatility. */
  lemma VolatilityIgnoresTimestamps(p: seq<PricePoint>, q: seq<PricePoint>)
    requires |p| == |q|
    requires forall i :: 0 <= i < |p| ==> p[i].1 == q[i].1
    ensures SquaredVolatility(p) == SquaredVolatility(q)
  {
    if |p| >= 2 && NoZeroDivisor(p) {
      assert Returns(p) == Returns(q);
    }
  }

  /** Every value multiplied by the same non-zero factor. */
  function ScaleValues(prices: seq<PricePoint>, c: real): (r: seq<PricePoint>)
    ensures |r| == |prices|
    ensures forall i :: 0 <= i < |prices| ==> r[i].0 == prices[i].0 && r[i].1 == c * prices[i].1
  {
    seq(|prices|, i requires 0 <= i < |prices| => (prices[i].0, c * prices[i].1))
  }

  lemma RatioScaleInvariant(a: real, b: real, c: real)
    requires a != 0.0 && c != 0.0
    ensures (c * b - c * a) / (c * a) == (b - a) / a
  {
    var x := (b - a) / a;
    assert b - a == x * a;
    assert c * b - c * a == c * (b - a);
    assert c * (b - a) == (c * a) * x;
  }

  /** Fractional returns do not depend on the unit of the prices. */
  lemma ReturnsScaleInvariant(prices: seq<PricePoint>, c: real)
    requires c != 0.0 && NoZeroDivisor(prices)
    ensures NoZeroDivisor(ScaleValues(prices, c))
    ensures Returns(ScaleValues(prices, c)) == Returns(prices)
  {
    var q := ScaleValues(prices, c);
    forall i | 0 <= i < |q| - 1
      ensures q[i].1 != 0.0
    {
      assert q[i].1 == c * prices[i].1;
    }
    var rq, rp := Returns(q), Returns(prices);
    forall i | 0 <= i < |rp|
      ensures rq[i] == rp[i]
    {
      var a, b := prices[i].1, prices[i + 1].1;
      assert q[i].1 == c * a && q[i + 1].1 == c * b;
      assert rq[i] == (c * b - c * a) / (c * a);
      assert rp[i] == (b - a) / a;
      RatioScaleInvariant(a, b, c);
    }
  }

  /** Volatility does not depend on the unit of the prices. */
  lemma VolatilityScaleInvariant(prices: seq<PricePoint>, c: real)
    requires c != 0.0
    ensures SquaredVolatility(ScaleValues(prices, c)) == SquaredVolatility(prices)
  {
    var q := ScaleValues(prices, c);
    if |prices| >= 2 {
      if NoZeroDivisor(prices) {
        ReturnsScaleInvariant(prices, c);
      } else {
        var i :| 0 <= i < |prices| - 1 && prices[i].1 == 0.0;
        assert q[i].1 == 0.0;
      }
    }
  }

  lemma {:induction false} SumOfZeros(xs: seq<real>)
    requires forall i :: 0 <= i < |xs| ==> xs[i] == 0.0
    ensures Sum(xs) == 0.0
  {
    if xs != [] {
      SumOfZeros(xs[1..]);
    }
  }

  lemma {:induction false} DeviationsOfZeros(xs: seq<real>)
    requires forall i :: 0 <= i < |xs| ==> xs[i] == 0.0
    ensures SumSquaredDeviations(xs, 0.0) == 0.0
  {
    if xs != [] {
      DeviationsOfZeros(xs[1..]);
    }
  }

  /** A constant non-zero price series has all-zero returns and volatility
      exactly 0. */
  lemma ConstantSeriesVolatility(prices: seq<PricePoint>, c: real)
    requires |prices| >= 2 && c != 0.0
    requires forall i :: 0 <= i < |prices| ==> prices[i].1 == c
    ensures NoZeroDivisor(prices)
    ensures forall i :: 0 <= i < |Returns(prices)| ==> Returns(prices)[i] == 0.0
    ensures SquaredVolatility(prices) == Some(0.0)
    ensures IsVolatility(prices, 0.0)
  {
    var r := Returns(prices);
    SumOfZeros(r);
    DeviationsOfZeros(r);
  }

  /** A constant series of zeros divides 0 by 0: the result is NaN, not 0. */
  lemma ZeroSeriesVolatility(prices: seq<PricePoint>)
    requires |prices| >= 2
    requires forall i :: 0 <= i < |prices| ==> prices[i].1 == 0.0
    ensures SquaredVolatility(prices) == None
  {
    assert prices[0].1 == 0.0;
  }
}
