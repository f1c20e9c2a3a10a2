/**
 * The process-wide exchange-rate cache and the lookup that fills it.
 *
 * The cache maps the key "$date-$base" to an inner map from the date to the whole
 * rate table fetched for that base. A lookup whose key is present answers from the
 * cache; otherwise it asks the rate service once, stores the table it gets and
 * answers from it. The rate service is an oracle (`fetch`), the rate type `R` is
 * left abstract.
 */
module RateCache {
  import opened Wrappers
  import opened Validation

  /** One base currency's rates on one date: target code to rate. */
  type RateTable<R> = map<string, R>

  /** Why the rate service gave no table: the call failed, or the reply was not a rate table. */
  datatype FetchError = NetworkError | ApiError

  datatype RateError = FetchFailed(cause: FetchError) | RateNotFound(target: string)

  /** The rate service: one call for a base currency. */
  type Fetch<R> = string -> Result<RateTable<R>, FetchError>

  type Entries<R> = map<string, map<string, RateTable<R>>>

  /** The cache key "$date-$base". */
  function CacheKey(date: string, base: string): string {
    date + "-" + base
  }

  /** For well-formed dates, the key determines the date and base it was built from. */
  lemma CacheKeyInjective(d1: string, b1: string, d2: string, b2: string)
    requires ValidateDate(d1) && ValidateDate(d2)
    ensures CacheKey(d1, b1) == CacheKey(d2, b2) <==> d1 == d2 && b1 == b2
  {
    if CacheKey(d1, b1) == CacheKey(d2, b2) {
      var k := CacheKey(d1, b1);
      assert d1 == k[..10] == d2;
      assert b1 == k[11..] == b2;
    }
  }

  /**
   * Every entry was made by a lookup: its key is "$date-$base" for a well-formed date,
   * and its inner map holds exactly that date.
   */
  ghost predicate WellFormed<R>(entries: Entries<R>) {
    forall k :: k in entries ==> EntryMadeByLookup(k, entries[k])
  }

  ghost predicate EntryMadeByLookup<R>(key: string, inner: map<string, RateTable<R>>) {
    |key| >= 11 && ValidateDate(key[..10]) && key[10] == '-' && inner.Keys == {key[..10]}
  }

  /** The inner map under a present key holds the date the key was built from. */
  lemma KeyHoldsItsDate<R>(entries: Entries<R>, date: string, base: string)
    requires WellFormed(entries) && ValidateDate(date)
    requires CacheKey(date, base) in entries
    ensures date in entries[CacheKey(date, base)]
  {
    assert CacheKey(date, base)[..10] == date;
  }

  /** `getDouble(target)` on a rate table. */
  function RateIn<R>(table: RateTable<R>, target: string): Result<R, RateError> {
    if target in table then Ok(table[target]) else Err(RateNotFound(target))
  }

  /** What one lookup does: the cache afterwards, whether it called the service, and the answer. */
  datatype Lookup<R> = Lookup(entries: Entries<R>, fetched: bool, rate: Result<R, RateError>)

  /**
   * The lookup for `target` in the rates of `base` on `date`. A hit changes nothing and
   * calls nothing. A miss calls the service once; a table it returns is stored under the
   * key even when it lacks `target`; a failed call stores nothing. No other key changes.
   */
  function Resolve<R>(entries: Entries<R>, date: string, base: string, target: string, fetch: Fetch<R>): (l: Lookup<R>)
    requires WellFormed(entries) && ValidateDate(date)
    ensures WellFormed(l.entries)
    ensures l.fetched <==> CacheKey(date, base) !in entries
    ensures !l.fetched ==> l.entries == entries
    ensures forall k :: k != CacheKey(date, base) ==> (k in l.entries <==> k in entries)
    ensures forall k :: k != CacheKey(date, base) && k in entries ==> l.entries[k] == entries[k]
    ensures l.fetched ==> (CacheKey(date, base) in l.entries <==> fetch(base).Ok?)
    ensures l.fetched && fetch(base).Ok? ==> l.entries[CacheKey(date, base)] == map[date := fetch(base).value]
    ensures l.fetched && fetch(base).Err? ==> l.entries == entries && l.rate == Err(FetchFailed(fetch(base).error))
    ensures CacheKey(date, base) in l.entries ==>
      date in l.entries[CacheKey(date, base)] && l.rate == RateIn(l.entries[CacheKey(date, base)][date], target)
  {
    var key := CacheKey(date, base);
    assert key[..10] == date && key[10] == '-';
    if key in entries then
      KeyHoldsItsDate(entries, date, base);
      Lookup(entries, false, RateIn(entries[key][date], target))
    else
      match fetch(base)
      case Err(e) => Lookup(entries, true, Err(FetchFailed(e)))
      case Ok(table) => Lookup(entries[key := map[date := table]], true, RateIn(table, target))
  }

  /**
   * Two lookups in a row for the same date and base call the service at most once,
   * whatever their targets: unless the first call failed, the second is a hit that
   * leaves the cache as it was and answers from the same table.
   */
  lemma SecondLookupHits<R>(entries: Entries<R>, date: string, base: string, t1: string, t2: string, fetch: Fetch<R>)
    requires WellFormed(entries) && ValidateDate(date)
    requires !Resolve(entries, date, base, t1, fetch).rate.Err? || !Resolve(entries, date, base, t1, fetch).rate.error.FetchFailed?
    ensures var first := Resolve(entries, date, base, t1, fetch);
      var second := Resolve(first.entries, date, base, t2, fetch);
      && !second.fetched
      && second.entries == first.entries
      && (t1 == t2 ==> second.rate == first.rate)
  {
    var first := Resolve(entries, date, base, t1, fetch);
    assert CacheKey(date, base) in first.entries;
  }

  /** A failed call is not remembered: the next lookup for the same key calls the service again. */
  lemma FailedFetchIsRetried<R>(entries: Entries<R>, date: string, base: string, t1: string, t2: string, fetch: Fetch<R>)
    requires WellFormed(entries) && ValidateDate(date)
    requires Resolve(entries, date, base, t1, fetch).rate.Err?
    requires Resolve(entries, date, base, t1, fetch).rate.error.FetchFailed?
    ensures Resolve(Resolve(entries, date, base, t1, fetch).entries, date, base, t2, fetch).fetched
  {
  }

  /** The cache: one per process, shared by every conversion in the run. */
  class ExchangeRateCache<R> {
    var entries: Entries<R>
    /** The base currencies the rate service was asked for, in order. */
    ghost var fetches: seq<string>

    ghost predicate Valid()
      reads this
    {
      WellFormed(entries)
    }

    constructor ()
      ensures Valid() && entries == map[] && fetches == []
    {
      entries := map[];
      fetches := [];
    }

    /** `getExchangeRate`: the rate of `target` per unit of `base` on `date`. */
    method GetExchangeRate(date: string, base: string, target: string, fetch: Fetch<R>)
      returns (rate: Result<R, RateError>)
      requires Valid() && ValidateDate(date)
      modifies this
      ensures Valid()
      ensures var l := Resolve(old(entries), date, base, target, fetch);
        && entries == l.entries
        && rate == l.rate
        && fetches == old(fetches) + (if l.fetched then [base] else [])
    {
      var key := CacheKey(date, base);
      if key in entries {
        KeyHoldsItsDate(entries, date, base);
        return RateIn(entries[key][date], target);
      }
      fetches := fetches + [base];
      var response := fetch(base);
      if response.Err? {
        return Err(FetchFailed(response.error));
      }
      // computeIfAbsent: the key is absent here, so its inner map starts empty
      var inner: map<string, RateTable<R>> := map[];
      assert key[..10] == date && key[10] == '-';
      entries := entries[key := inner[date := response.value]];
      rate := RateIn(response.value, target);
    }
  }
}
