/** The price cache store (useCoinsStore): one field, coinDataTop50, and the
    action fetchCoins that refreshes it from the price API.

    The awaited API call is not modelled; its outcome is passed to the action. */
module CoinsStore {

  /** How many records the cache keeps. */
  const TopN: nat := 50

  /** What `await CoinService.getCoins()` followed by `response.data.data`
      gives the action: the call rejects; `response.data.data` is missing or
      has no `slice` (null, a number, a boolean, a plain object), so the call
      of `.slice` throws; or the data array arrives. */
  datatype FetchOutcome<Coin> = Rejected | NoDataArray | Fulfilled(data: seq<Coin>)

  function Min(a: nat, b: nat): nat {
    if a <= b then a else b
  }

  /** `Array.prototype.slice(start, end)` for non-negative bounds: both are
      clamped to the length, and an empty range gives the empty array. */
  function Slice<T>(s: seq<T>, start: nat, end: nat): (r: seq<T>)
    ensures |r| == if Min(start, |s|) < Min(end, |s|) then Min(end, |s|) - Min(start, |s|) else 0
    ensures forall k :: 0 <= k < |r| ==> r[k] == s[start + k]
  {
    var from, to := Min(start, |s|), Min(end, |s|);
    if from < to then s[from..to] else []
  }

  /** The cache after one call of the action, as a function of the cache
      before it and of the fetch outcome. */
  function AfterFetch<Coin>(cache: seq<Coin>, outcome: FetchOutcome<Coin>): (r: seq<Coin>)
    ensures outcome.Fulfilled? ==> r == outcome.data[..Min(TopN, |outcome.data|)]
    ensures !outcome.Fulfilled? ==> r == cache
  {
    match outcome
    case Fulfilled(data) => Slice(data, 0, TopN)
    case _ => cache
  }

  /** A successful fetch keeps the first min(50, |data|) records of the
      response, in the response's order. */
  lemma FetchKeepsTopPrefix<Coin>(cache: seq<Coin>, data: seq<Coin>)
    ensures |AfterFetch(cache, Fulfilled(data))| == Min(TopN, |data|)
    ensures AfterFetch(cache, Fulfilled(data)) == data[..Min(TopN, |data|)]
  {
    var r := AfterFetch(cache, Fulfilled(data));
    assert forall k :: 0 <= k < |r| ==> r[k] == data[..Min(TopN, |data|)][k];
  }

  /** A successful fetch overwrites the cache: the previous contents do not matter. */
  lemma FetchOverwrites<Coin>(cache: seq<Coin>, other: seq<Coin>, data: seq<Coin>)
    ensures AfterFetch(cache, Fulfilled(data)) == AfterFetch(other, Fulfilled(data))
  {
  }

  /** A failed fetch, including one whose `response.data.data` has no `slice`, leaves the cache as it was. */
  lemma FailedFetchKeepsCache<Coin>(cache: seq<Coin>, outcome: FetchOutcome<Coin>)
    requires !outcome.Fulfilled?
    ensures AfterFetch(cache, outcome) == cache
  {
  }

  /** The cache never holds more than 50 records. */
  lemma FetchPreservesBound<Coin>(cache: seq<Coin>, outcome: FetchOutcome<Coin>)
    requires |cache| <= TopN
    ensures |AfterFetch(cache, outcome)| <= TopN
  {
  }

  /** Refreshing twice with the same outcome is the same as refreshing once. */
  lemma FetchIdempotent<Coin>(cache: seq<Coin>, outcome: FetchOutcome<Coin>)
    ensures AfterFetch(AfterFetch(cache, outcome), outcome) == AfterFetch(cache, outcome)
  {
  }

  /** The store: its one piece of reactive state. */
  class Store<Coin> {
    var coinDataTop50: seq<Coin>

    ghost predicate Valid()
      reads this
    {
      |coinDataTop50| <= TopN
    }

    /** `ref([])`: the cache starts empty. */
    constructor ()
      ensures Valid()
      ensures coinDataTop50 == []
    {
      coinDataTop50 := [];
    }

    /** fetchCoins, given what the API call produced. */
    method FetchCoins(outcome: FetchOutcome<Coin>)
      requires Valid()
      modifies this
      ensures Valid()
      ensures coinDataTop50 == AfterFetch(old(coinDataTop50), outcome)
    {
      if outcome.Fulfilled? {
        var coins := Slice(outcome.data, 0, TopN);
        coinDataTop50 := coins;
      }
      // Otherwise the error is logged and the cache is left alone.
    }
  }

  /** Two refreshes with the same successful response leave the store as one does. */
  method RefreshTwice<Coin>(store: Store<Coin>, data: seq<Coin>)
    requires store.Valid()
    modifies store
    ensures store.Valid()
    ensures store.coinDataTop50 == AfterFetch(old(store.coinDataTop50), Fulfilled(data))
  {
    store.FetchCoins(Fulfilled(data));
    store.FetchCoins(Fulfilled(data));
    FetchIdempotent(old(store.coinDataTop50), Fulfilled(data));
  }
}
