/** `get_meme_coin_data`: choosing one canonical quote among the trading
    pairs the market-data service returns for a token address. */
module Quotes {
  import opened Wrappers
  import opened Json
  import opened Addresses

  /** What the HTTP request yields: a status code and the body, `None` when
      the body is not JSON (where `response.json()` raises). */
  datatype Response = Response(status: int, body: Option<Json>)

  /** The record `get_meme_coin_data` returns. */
  datatype Quote = Quote(
    price: real,
    pairAddress: Json,
    baseToken: Json,
    quoteToken: Json,
    change24h: real,
    chain: Chain)

  const TokensEndpoint: string := "https://api.dexscreener.com/latest/dex/tokens/"

  /** The condition of the comprehension that builds `valid_pairs`: a usable
      price and the classified chain; `None` where `p.get` raises. */
  function Keep(p: Json, chain: Chain): (r: Option<bool>)
    ensures r.Some? <==> p.Obj?
    ensures r == Some(true) <==>
      && p.Obj?
      && "priceUsd" in p.fields && Truthy(p.fields["priceUsd"])
      && "chainId" in p.fields && p.fields["chainId"] == Str(ChainName(chain))
  {
    if !p.Obj? then None
    else
      var price := GetOr(p, "priceUsd", Null).value;
      var chainId := GetOr(p, "chainId", Null).value;
      Some(Truthy(price) && chainId == Str(ChainName(chain)))
  }

  /** `p` is kept: a dict with a truthy `priceUsd` and `chainId` equal to the chain's name. */
  predicate Kept(p: Json, chain: Chain)
  {
    Keep(p, chain) == Some(true)
  }

  predicate AllObjects(items: seq<Json>)
  {
    forall i :: 0 <= i < |items| ==> items[i].Obj?
  }

  /** The positions of the kept pairs, in response order. */
  function KeptIndices(items: seq<Json>, chain: Chain): (ks: seq<nat>)
    ensures forall i :: 0 <= i < |ks| ==> ks[i] < |items| && Kept(items[ks[i]], chain)
    ensures forall i, j :: 0 <= i < j < |ks| ==> ks[i] < ks[j]
    ensures forall n :: 0 <= n < |items| && Kept(items[n], chain) ==> n in ks
  {
    if |items| == 0 then []
    else
      var n := |items| - 1;
      var earlier := KeptIndices(items[..n], chain);
      assert forall i :: 0 <= i < |earlier| ==> items[earlier[i]] == items[..n][earlier[i]];
      earlier + (if Kept(items[n], chain) then [n] else [])
  }

  /** `valid_pairs`: exactly the kept pairs, in response order; `None` when
      some pair is not a dict. */
  function ValidPairs(items: seq<Json>, chain: Chain): (r: Option<seq<Json>>)
    ensures r.Some? <==> AllObjects(items)
    ensures r.Some? ==> |r.value| == |KeptIndices(items, chain)|
    ensures r.Some? ==> forall i :: 0 <= i < |r.value| ==> r.value[i] == items[KeptIndices(items, chain)[i]]
  {
    if |items| == 0 then Some([])
    else
      var n := |items| - 1;
      assert forall i :: 0 <= i < n ==> items[..n][i] == items[i];
      var kept :- ValidPairs(items[..n], chain);
      var keep :- Keep(items[n], chain);
      Some(if keep then kept + [items[n]] else kept)
  }

  /** The key of the `max` call, `float(x.get('volumeUsd', 0))`: an absent
      volume counts as 0. */
  function VolumeKey(p: Json, parse: string -> Option<real>): (r: Option<real>)
    ensures !p.Obj? ==> r.None?
    ensures p.Obj? && "volumeUsd" !in p.fields ==> r == Some(0.0)
    ensures p.Obj? && "volumeUsd" in p.fields ==> r == ToFloat(p.fields["volumeUsd"], parse)
  {
    var volume :- GetOr(p, "volumeUsd", Num(0.0));
    ToFloat(volume, parse)
  }

  /** The keys of all pairs; `None` when one of them raises. */
  function Volumes(ps: seq<Json>, parse: string -> Option<real>): (r: Option<seq<real>>)
    ensures r.Some? <==> forall i :: 0 <= i < |ps| ==> VolumeKey(ps[i], parse).Some?
    ensures r.Some? ==> |r.value| == |ps|
    ensures r.Some? ==> forall i :: 0 <= i < |ps| ==> VolumeKey(ps[i], parse) == Some(r.value[i])
  {
    if |ps| == 0 then Some([])
    else
      var n := |ps| - 1;
      assert forall i :: 0 <= i < n ==> ps[..n][i] == ps[i];
      var earlier :- Volumes(ps[..n], parse);
      var last :- VolumeKey(ps[n], parse);
      Some(earlier + [last])
  }

  /** Python `max` over positions `i..` of `keys`, with `best` the position
      of the first largest key before `i`: a later key replaces the best
      only when it is strictly greater. */
  function MaxFrom(keys: seq<real>, i: nat, best: nat): (k: nat)
    requires best < i <= |keys|
    requires forall j :: 0 <= j < i ==> keys[j] <= keys[best]
    requires forall j :: 0 <= j < best ==> keys[j] < keys[best]
    ensures k < |keys|
    ensures forall j :: 0 <= j < |keys| ==> keys[j] <= keys[k]
    ensures forall j :: 0 <= j < k ==> keys[j] < keys[k]
    decreases |keys| - i
  {
    if i == |keys| then best
    else MaxFrom(keys, i + 1, if keys[i] > keys[best] then i else best)
  }

  /** The position `max(..., key=...)` picks: the first one with the largest key. */
  function MaxByKey(keys: seq<real>): (k: nat)
    requires |keys| > 0
    ensures k < |keys|
    ensures forall j :: 0 <= j < |keys| ==> keys[j] <= keys[k]
    ensures forall j :: 0 <= j < k ==> keys[j] < keys[k]
  {
    MaxFrom(keys, 1, 0)
  }

  /** The pairs from which the result record can be built: an object with a
      price `float` accepts, a pair address, base and quote tokens that are
      objects with a symbol, and, where present, a `priceChange` object
      whose `h24`, where present, `float` accepts. */
  predicate Quotable(p: Json, parse: string -> Option<real>)
  {
    && p.Obj?
    && "priceUsd" in p.fields && ToFloat(p.fields["priceUsd"], parse).Some?
    && "pairAddress" in p.fields
    && "baseToken" in p.fields && Lookup(p.fields["baseToken"], "symbol").Some?
    && "quoteToken" in p.fields && Lookup(p.fields["quoteToken"], "symbol").Some?
    && ("priceChange" in p.fields ==>
          && p.fields["priceChange"].Obj?
          && ("h24" in p.fields["priceChange"].fields ==>
                ToFloat(p.fields["priceChange"].fields["h24"], parse).Some?))
  }

  /** The result record built from the chosen pair; `None` where a field is
      missing or malformed (a KeyError, TypeError or ValueError). */
  function BuildQuote(p: Json, chain: Chain, parse: string -> Option<real>): (r: Option<Quote>)
    ensures r.Some? <==> Quotable(p, parse)
    ensures r.Some? ==> r.value.chain == chain
    ensures r.Some? ==> p.Obj? && "priceUsd" in p.fields && ToFloat(p.fields["priceUsd"], parse) == Some(r.value.price)
    ensures r.Some? ==> "pairAddress" in p.fields && r.value.pairAddress == p.fields["pairAddress"]
    ensures r.Some? ==> "baseToken" in p.fields && Lookup(p.fields["baseToken"], "symbol") == Some(r.value.baseToken)
    ensures r.Some? ==> "quoteToken" in p.fields && Lookup(p.fields["quoteToken"], "symbol") == Some(r.value.quoteToken)
    ensures r.Some? && "priceChange" !in p.fields ==> r.value.change24h == 0.0
    ensures r.Some? && "priceChange" in p.fields ==>
      && p.fields["priceChange"].Obj?
      && ("h24" in p.fields["priceChange"].fields ==>
            ToFloat(p.fields["priceChange"].fields["h24"], parse) == Some(r.value.change24h))
      && ("h24" !in p.fields["priceChange"].fields ==> r.value.change24h == 0.0)
    ensures !p.Obj? || "pairAddress" !in p.fields || "baseToken" !in p.fields || "quoteToken" !in p.fields ==> r.None?
    ensures p.Obj? && "priceUsd" in p.fields && ToFloat(p.fields["priceUsd"], parse).None? ==> r.None?
  {
    var priceText :- Lookup(p, "priceUsd");
    var price :- ToFloat(priceText, parse);
    var pairAddress :- Lookup(p, "pairAddress");
    var baseToken :- Lookup(p, "baseToken");
    var baseSymbol :- Lookup(baseToken, "symbol");
    var quoteToken :- Lookup(p, "quoteToken");
    var quoteSymbol :- Lookup(quoteToken, "symbol");
    var priceChange := GetOr(p, "priceChange", Obj(map[])).value;
    var h24 :- GetOr(priceChange, "h24", Num(0.0));
    var change :- ToFloat(h24, parse);
    Some(Quote(price, pairAddress, baseSymbol, quoteSymbol, change, chain))
  }

  /** The pair list of a response; `None` for a status other than 200, a
      body that is not JSON or not an object, and a `pairs` entry that is
      absent, empty or not a list (a non-empty string or object iterates to
      strings, which have no `get`; numbers and `true` are not iterable). */
  function ResponsePairs(resp: Response): (r: Option<seq<Json>>)
    ensures r.Some? <==>
      && resp.status == 200
      && resp.body.Some? && resp.body.value.Obj?
      && "pairs" in resp.body.value.fields
      && resp.body.value.fields["pairs"].Arr?
      && |resp.body.value.fields["pairs"].items| > 0
    ensures r.Some? ==> r.value == resp.body.value.fields["pairs"].items
  {
    if resp.status != 200 then None
    else
      var data :- resp.body;
      var pairs :- GetOr(data, "pairs", Null);
      if !Truthy(pairs) then None
      else if pairs.Arr? then Some(pairs.items)
      else None
  }

  /** Filter, `max` and record building over the pair list. */
  function SelectPair(items: seq<Json>, chain: Chain, parse: string -> Option<real>): (r: Option<Quote>)
    ensures r.Some? ==> r.value.chain == chain
    ensures r.Some? ==> AllObjects(items) && |KeptIndices(items, chain)| > 0
  {
    var valid :- ValidPairs(items, chain);
    if |valid| == 0 then None
    else
      var volumes :- Volumes(valid, parse);
      BuildQuote(valid[MaxByKey(volumes)], chain, parse)
  }

  /** Everything after the request: `response == None` is a transport error
      or timeout raised by `requests.get`. */
  function SelectQuote(chain: Chain, response: Option<Response>, parse: string -> Option<real>): (r: Option<Quote>)
    ensures r.Some? ==> r.value.chain == chain
    ensures r.Some? ==>
      && response.Some?
      && ResponsePairs(response.value).Some?
      && r == SelectPair(ResponsePairs(response.value).value, chain, parse)
    ensures response.Some? && ResponsePairs(response.value).Some? ==>
      r == SelectPair(ResponsePairs(response.value).value, chain, parse)
  {
    var resp :- response;
    var items :- ResponsePairs(resp);
    SelectPair(items, chain, parse)
  }

  /** `get_meme_coin_data`; `fetch` stands for `requests.get` on a URL. */
  function GetMemeCoinData(
    address: string,
    fetch: string -> Option<Response>,
    parse: string -> Option<real>): (r: Option<Quote>)
    ensures r.Some? ==> Classify(address) == Some(r.value.chain)
    ensures r.Some? ==> fetch(TokensEndpoint + address).Some?
    ensures Classify(address).Some? ==>
      r == SelectQuote(Classify(address).value, fetch(TokensEndpoint + address), parse)
  {
    var chain :- Classify(address);
    SelectQuote(chain, fetch(TokensEndpoint + address), parse)
  }

  /** The canonical pair, independently of how `max` computes it: position
      `k` holds a kept pair, every kept pair's volume parses, none is larger
      than `k`'s, and every kept pair before `k` is strictly smaller. */
  ghost predicate IsMainPair(items: seq<Json>, chain: Chain, parse: string -> Option<real>, k: int)
  {
    && AllObjects(items)
    && 0 <= k < |items|
    && Kept(items[k], chain)
    && (forall j :: 0 <= j < |items| && Kept(items[j], chain) ==> VolumeKey(items[j], parse).Some?)
    && VolumeKey(items[k], parse).Some?
    && (forall j :: 0 <= j < |items| && Kept(items[j], chain) ==>
          VolumeKey(items[j], parse).value <= VolumeKey(items[k], parse).value)
    && (forall j :: 0 <= j < k && Kept(items[j], chain) ==>
          VolumeKey(items[j], parse).value < VolumeKey(items[k], parse).value)
  }

  /** At most one position is the canonical pair. */
  lemma MainPairUnique(items: seq<Json>, chain: Chain, parse: string -> Option<real>, k1: int, k2: int)
    requires IsMainPair(items, chain, parse, k1) && IsMainPair(items, chain, parse, k2)
    ensures k1 == k2
  {
  }

  /** The position that filter-then-`max` arrives at is the canonical pair. */
  lemma MaxOfValidIsMainPair(items: seq<Json>, chain: Chain, parse: string -> Option<real>)
    requires ValidPairs(items, chain).Some?
    requires |ValidPairs(items, chain).value| > 0
    requires Volumes(ValidPairs(items, chain).value, parse).Some?
    ensures IsMainPair(items, chain, parse,
      KeptIndices(items, chain)[MaxByKey(Volumes(ValidPairs(items, chain).value, parse).value)])
  {
    var valid := ValidPairs(items, chain).value;
    var ks := KeptIndices(items, chain);
    var volumes := Volumes(valid, parse).value;
    var m := MaxByKey(volumes);
    var k := ks[m];
    assert valid[m] == items[k];
    forall j | 0 <= j < |items| && Kept(items[j], chain)
      ensures VolumeKey(items[j], parse).Some?
      ensures VolumeKey(items[j], parse).value <= volumes[m]
      ensures j < k ==> VolumeKey(items[j], parse).value < volumes[m]
    {
      KeptVolume(items, chain, parse, j);
    }
  }

  /** A kept pair's volume is the key `max` sees for it, no later in the
      filtered list than its place in the response says. */
  lemma KeptVolume(items: seq<Json>, chain: Chain, parse: string -> Option<real>, j: nat)
    requires ValidPairs(items, chain).Some?
    requires |ValidPairs(items, chain).value| > 0
    requires Volumes(ValidPairs(items, chain).value, parse).Some?
    requires j < |items| && Kept(items[j], chain)
    ensures var volumes := Volumes(ValidPairs(items, chain).value, parse).value;
      var m := MaxByKey(volumes);
      && VolumeKey(items[j], parse).Some?
      && VolumeKey(items[j], parse).value <= volumes[m]
      && (j < KeptIndices(items, chain)[m] ==> VolumeKey(items[j], parse).value < volumes[m])
  {
    var valid := ValidPairs(items, chain).value;
    var ks := KeptIndices(items, chain);
    var volumes := Volumes(valid, parse).value;
    var m := MaxByKey(volumes);
    var i := KeptPosition(ks, j);
    assert valid[i] == items[j];
    assert VolumeKey(items[j], parse) == Some(volumes[i]);
    if j < ks[m] {
      IncreasingOrder(ks, i, m);
    }
  }

  /** In a strictly increasing sequence, a smaller element stands earlier. */
  lemma IncreasingOrder(ks: seq<nat>, i: nat, m: nat)
    requires forall a, b :: 0 <= a < b < |ks| ==> ks[a] < ks[b]
    requires i < |ks| && m < |ks| && ks[i] < ks[m]
    ensures i < m
  {
  }

  /** Where in `ks` the position `n` stands. */
  function KeptPosition(ks: seq<nat>, n: nat): (i: nat)
    requires n in ks
    ensures i < |ks| && ks[i] == n
  {
    if ks[0] == n then 0 else 1 + KeptPosition(ks[1..], n)
  }

  /** The pair list yields the quote built from the canonical pair whenever
      there is one, whatever the order of the other pairs. */
  lemma MainPairSelected(items: seq<Json>, chain: Chain, parse: string -> Option<real>, k: int)
    requires IsMainPair(items, chain, parse, k)
    ensures SelectPair(items, chain, parse) == BuildQuote(items[k], chain, parse)
    ensures SelectPair(items, chain, parse).Some? <==> Quotable(items[k], parse)
  {
    var valid := ValidPairs(items, chain).value;
    var ks := KeptIndices(items, chain);
    assert k in ks;
    assert forall i :: 0 <= i < |valid| ==> Kept(items[ks[i]], chain);
    var volumes := Volumes(valid, parse).value;
    MaxOfValidIsMainPair(items, chain, parse);
    MainPairUnique(items, chain, parse, k, ks[MaxByKey(volumes)]);
  }

  /** A quote always comes from the canonical pair: a kept pair, so one whose
      `chainId` is the classified chain, with the first largest volume. */
  lemma SelectedIsMainPair(items: seq<Json>, chain: Chain, parse: string -> Option<real>)
    ensures SelectPair(items, chain, parse).Some? ==>
      exists k :: (IsMainPair(items, chain, parse, k)
        && items[k].fields["chainId"] == Str(ChainName(chain))
        && BuildQuote(items[k], chain, parse) == SelectPair(items, chain, parse))
  {
    if SelectPair(items, chain, parse).Some? {
      var valid := ValidPairs(items, chain).value;
      var volumes := Volumes(valid, parse).value;
      MaxOfValidIsMainPair(items, chain, parse);
      var k := KeptIndices(items, chain)[MaxByKey(volumes)];
      assert IsMainPair(items, chain, parse, k);
    }
  }

  /** A canonical pair exists when every pair is a dict, some pair is kept
      and every kept pair's volume parses ... */
  lemma MainPairExists(items: seq<Json>, chain: Chain, parse: string -> Option<real>, j: nat)
    requires AllObjects(items)
    requires j < |items| && Kept(items[j], chain)
    requires forall n :: 0 <= n < |items| && Kept(items[n], chain) ==> VolumeKey(items[n], parse).Some?
    ensures exists k :: IsMainPair(items, chain, parse, k)
  {
    var valid := ValidPairs(items, chain).value;
    var ks := KeptIndices(items, chain);
    assert j in ks;
    assert forall i :: 0 <= i < |valid| ==> Kept(items[ks[i]], chain);
    MaxOfValidIsMainPair(items, chain, parse);
  }

  /** ... and only then. */
  lemma MainPairConditions(items: seq<Json>, chain: Chain, parse: string -> Option<real>, k: int)
    requires IsMainPair(items, chain, parse, k)
    ensures AllObjects(items)
    ensures exists j :: 0 <= j < |items| && Kept(items[j], chain)
    ensures forall n :: 0 <= n < |items| && Kept(items[n], chain) ==> VolumeKey(items[n], parse).Some?
  {
  }

  /** No quote when no pair has both a truthy price and the classified chain. */
  lemma NoKeptPairNoQuote(items: seq<Json>, chain: Chain, parse: string -> Option<real>)
    requires forall j :: 0 <= j < |items| ==> !Kept(items[j], chain)
    ensures SelectPair(items, chain, parse) == None
  {
  }

  /** An unparseable volume on ANY kept pair, not only the largest, loses the
      quote: the key of `max` raises, it does not count as 0. */
  lemma UnparseableVolumeNoQuote(items: seq<Json>, chain: Chain, parse: string -> Option<real>, j: nat)
    requires j < |items| && Kept(items[j], chain) && VolumeKey(items[j], parse).None?
    ensures SelectPair(items, chain, parse) == None
  {
    if SelectPair(items, chain, parse).Some? {
      SelectedIsMainPair(items, chain, parse);
    }
  }

  /** One pair that is not a dict anywhere in the list loses the quote. */
  lemma NonObjectPairNoQuote(items: seq<Json>, chain: Chain, parse: string -> Option<real>, j: nat)
    requires j < |items| && !items[j].Obj?
    ensures SelectPair(items, chain, parse) == None
  {
  }

  /** A kept pair whose volume is strictly larger than every other kept
      pair's is chosen, wherever it stands in the response. */
  lemma HighestVolumeWins(items: seq<Json>, chain: Chain, parse: string -> Option<real>, k: nat)
    requires AllObjects(items)
    requires k < |items| && Kept(items[k], chain)
    requires forall j :: 0 <= j < |items| && Kept(items[j], chain) ==> VolumeKey(items[j], parse).Some?
    requires forall j :: 0 <= j < |items| && j != k && Kept(items[j], chain) ==>
      VolumeKey(items[j], parse).value < VolumeKey(items[k], parse).value
    ensures SelectPair(items, chain, parse) == BuildQuote(items[k], chain, parse)
  {
    MainPairSelected(items, chain, parse, k);
  }

  /** When no kept pair reports a volume, all count as 0 and the first kept
      pair in response order is chosen. */
  lemma MissingVolumesPickFirst(items: seq<Json>, chain: Chain, parse: string -> Option<real>, k: nat)
    requires AllObjects(items)
    requires k < |items| && Kept(items[k], chain)
    requires forall j :: 0 <= j < k ==> !Kept(items[j], chain)
    requires forall j :: 0 <= j < |items| && Kept(items[j], chain) ==> "volumeUsd" !in items[j].fields
    ensures SelectPair(items, chain, parse) == BuildQuote(items[k], chain, parse)
  {
    assert forall j :: 0 <= j < |items| && Kept(items[j], chain) ==> VolumeKey(items[j], parse) == Some(0.0);
    MainPairSelected(items, chain, parse, k);
  }

  /** `get_meme_coin_data` returns `None` for an unclassifiable address,
      whatever the request would have returned. */
  lemma InvalidAddressNoQuote(address: string, fetch: string -> Option<Response>, parse: string -> Option<real>)
    requires Classify(address) == None
    ensures GetMemeCoinData(address, fetch, parse) == None
  {
  }

  /** Request failures: a transport error, a status other than 200, a body
      that is not JSON, no pair list or an empty one. */
  lemma RequestFailureNoQuote(chain: Chain, response: Option<Response>, parse: string -> Option<real>)
    requires
      || response.None?
      || response.value.status != 200
      || response.value.body.None?
      || (response.value.body.value.Obj? && "pairs" !in response.value.body.value.fields)
      || (response.value.body.value.Obj? && response.value.body.value.fields["pairs"] == Arr([]))
    ensures SelectQuote(chain, response, parse) == None
  {
  }

  /** A quote's `chain` is the address's classification and its pair is the
      canonical pair of the response for that chain. */
  lemma QuoteIsCanonical(address: string, fetch: string -> Option<Response>, parse: string -> Option<real>)
    ensures GetMemeCoinData(address, fetch, parse).Some? ==>
      && Classify(address).Some?
      && GetMemeCoinData(address, fetch, parse).value.chain == Classify(address).value
      && fetch(TokensEndpoint + address).Some?
      && ResponsePairs(fetch(TokensEndpoint + address).value).Some?
      && (exists k ::
            && IsMainPair(ResponsePairs(fetch(TokensEndpoint + address).value).value,
                 Classify(address).value, parse, k)
            && GetMemeCoinData(address, fetch, parse) ==
                 BuildQuote(ResponsePairs(fetch(TokensEndpoint + address).value).value[k],
                   Classify(address).value, parse))
  {
    if GetMemeCoinData(address, fetch, parse).Some? {
      var items := ResponsePairs(fetch(TokensEndpoint + address).value).value;
      SelectedIsMainPair(items, Classify(address).value, parse);
    }
  }

  /** Conversely, a classified address whose response holds a canonical pair
      gets the record built from that pair, and so a quote exactly when that
      pair is `Quotable`. */
  lemma CanonicalPairQuoted(
    address: string,
    fetch: string -> Option<Response>,
    parse: string -> Option<real>,
    k: int)
    requires Classify(address).Some?
    requires fetch(TokensEndpoint + address).Some?
    requires ResponsePairs(fetch(TokensEndpoint + address).value).Some?
    requires IsMainPair(ResponsePairs(fetch(TokensEndpoint + address).value).value,
      Classify(address).value, parse, k)
    ensures GetMemeCoinData(address, fetch, parse) ==
      BuildQuote(ResponsePairs(fetch(TokensEndpoint + address).value).value[k],
        Classify(address).value, parse)
    ensures GetMemeCoinData(address, fetch, parse).Some? <==>
      Quotable(ResponsePairs(fetch(TokensEndpoint + address).value).value[k], parse)
  {
    var items := ResponsePairs(fetch(TokensEndpoint + address).value).value;
    MainPairSelected(items, Classify(address).value, parse, k);
  }
}
