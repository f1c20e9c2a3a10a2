/**
 * The converter's main loop: check the date argument, then run prompt cycles until
 * END or the end of input; for every accepted request look up the rate through the
 * shared cache and append the conversion to the log. An exception in the program
 * (a failed rate call, a rate missing from the table, an unreadable log) ends the
 * run; here it is an ending of its own.
 */
module Converter {
  import opened Wrappers
  import opened Validation
  import opened Interaction
  import opened RateCache
  import opened Ledger

  datatype Ending =
    | Usage                            // no date argument, or a malformed one
    | Finished                         // END at an amount prompt
    | OutOfInput                       // the input ended inside a cycle or at its start
    | RateFailed(rateError: RateError)   // the rate lookup threw
    | LedgerFailed(ledgerError: LedgerError) // the existing log could not be read

  /** The stored record says which request it converted and on which date. */
  predicate RecordOf<R>(date: string, record: Record<R>, request: Request) {
    && record.date == date
    && ValidateAmount(request.amount)
    && record.amountCents == AmountCents(request.amount)
    && record.base == request.base
    && record.target == request.target
  }

  /** What one conversion leaves behind: the cache, the log, the bases fetched and the answer. */
  datatype Converted<R> = Converted(entries: Entries<R>, file: LedgerFile<R>, fetched: seq<string>,
                                    result: Result<Record<R>, Ending>)

  /**
   * One conversion (the end of a cycle of `main`) on values: the cache is asked for the
   * rate, the amount is converted with it and the record is appended to the log. The
   * service is called exactly when the cache has no table for the date and base; the
   * conversion fails exactly when the lookup fails or the old log cannot be read, and
   * then the log is as it was.
   */
  function Conversion<R>(entries: Entries<R>, file: LedgerFile<R>, date: string, request: Request,
                         fetch: Fetch<R>, convert: (nat, R) -> R): (c: Converted<R>)
    requires WellFormed(entries) && ValidateDate(date) && ValidateAmount(request.amount)
    ensures WellFormed(c.entries)
  {
    var l := Resolve(entries, date, request.base, request.target, fetch);
    var fetched := if l.fetched then [request.base] else [];
    match l.rate
    case Err(e) => Converted(l.entries, file, fetched, Err(RateFailed(e)))
    case Ok(rate) =>
      var cents := AmountCents(request.amount);
      var record := Record(date, cents, request.base, request.target, convert(cents, rate));
      match Existing(file)
      case Err(e) => Converted(l.entries, file, fetched, Err(LedgerFailed(e)))
      case Ok(_) => Converted(l.entries, AfterSave(file, record), fetched, Ok(record))
  }

  /**
   * What one conversion does: the cache is the one the lookup leaves; the service is
   * called exactly when the cache has no table for the date and base; the conversion
   * succeeds exactly when the lookup finds a rate and the old log can be read, and then
   * the record converts the request's cents with that rate and is appended to the log;
   * otherwise the log is as it was and the error says which step failed.
   */
  lemma ConversionFacts<R>(entries: Entries<R>, file: LedgerFile<R>, date: string, request: Request,
                           fetch: Fetch<R>, convert: (nat, R) -> R)
    requires WellFormed(entries) && ValidateDate(date) && ValidateAmount(request.amount)
    ensures var c := Conversion(entries, file, date, request, fetch, convert);
      var l := Resolve(entries, date, request.base, request.target, fetch);
      && c.entries == l.entries
      && c.fetched == (if CacheKey(date, request.base) in entries then [] else [request.base])
      && (c.result.Ok? <==> l.rate.Ok? && Existing(file).Ok?)
      && (c.result.Ok? ==>
            && RecordOf(date, c.result.value, request)
            && c.result.value.converted == convert(AmountCents(request.amount), l.rate.value)
            && c.file == AfterSave(file, c.result.value)
            && Existing(c.file) == Ok(Existing(file).value + [c.result.value]))
      && (c.result.Err? ==> c.file == file)
      && (l.rate.Err? ==> c.result == Err(RateFailed(l.rate.error)))
      && (l.rate.Ok? && Existing(file).Err? ==> c.result == Err(LedgerFailed(Corrupt)))
  {
  }

  /**
   * The conversion as the program does it, on the shared cache and the log file.
   */
  method ConvertAndRecord<R>(date: string, request: Request, cache: ExchangeRateCache<R>, log: ConversionLog<R>,
                             fetch: Fetch<R>, convert: (nat, R) -> R)
    returns (result: Result<Record<R>, Ending>, ghost fetched: seq<string>)
    requires cache.Valid() && ValidateDate(date) && ValidateAmount(request.amount)
    modifies cache, log
    ensures cache.Valid()
    ensures cache.fetches == old(cache.fetches) + fetched
    ensures var c := Conversion(old(cache.entries), old(log.file), date, request, fetch, convert);
      && cache.entries == c.entries
      && log.file == c.file
      && fetched == c.fetched
      && result == c.result
  {
    var rate := cache.GetExchangeRate(date, request.base, request.target, fetch);
    fetched := if Resolve(old(cache.entries), date, request.base, request.target, fetch).fetched then [request.base] else [];
    if rate.Err? {
      return Err(RateFailed(rate.error)), fetched;
    }
    var amount := AmountCents(request.amount);
    var record := Record(date, amount, request.base, request.target, convert(amount, rate.value));
    var outcome := log.SaveConversion(record);
    if outcome.Err? {
      return Err(LedgerFailed(outcome.error)), fetched;
    }
    result := Ok(record);
  }

  /** Where a run stands after some requests: cache, log, records saved, bases fetched, and how it failed. */
  datatype Outcome<R> = Outcome(entries: Entries<R>, file: LedgerFile<R>, saved: seq<Record<R>>,
                                fetched: seq<string>, failure: Option<Ending>)

  /** The run after one more conversion. */
  function Advance<R>(prev: Outcome<R>, c: Converted<R>): Outcome<R> {
    match c.result
    case Ok(record) => Outcome(c.entries, c.file, prev.saved + [record], prev.fetched + c.fetched, None)
    case Err(e) => Outcome(c.entries, c.file, prev.saved, prev.fetched + c.fetched, Some(e))
  }

  predicate AmountsValid(requests: seq<Request>) {
    forall r :: r in requests ==> ValidateAmount(r.amount)
  }

  /**
   * The first `n` requests of a session served one after another from the cache
   * `entries` and the log `file`, stopping at the first conversion that fails. Each
   * served request saves one record; a failure saves none and ends the run.
   */
  function Served<R>(entries: Entries<R>, file: LedgerFile<R>, date: string, requests: seq<Request>, n: nat,
                     fetch: Fetch<R>, convert: (nat, R) -> R): (o: Outcome<R>)
    requires WellFormed(entries) && ValidateDate(date) && AmountsValid(requests) && n <= |requests|
    ensures WellFormed(o.entries)
    ensures o.failure.None? ==> |o.saved| == n
    ensures o.failure.Some? ==> |o.saved| < n && (o.failure.value.RateFailed? || o.failure.value.LedgerFailed?)
    decreases n, 2
  {
    if n == 0 then Outcome(entries, file, [], [], None)
    else ServedLast(entries, file, date, requests, n, fetch, convert)
  }

  /** The run after its `n`-th request: that request served, unless the run failed before it. */
  function ServedLast<R>(entries: Entries<R>, file: LedgerFile<R>, date: string, requests: seq<Request>, n: nat,
                         fetch: Fetch<R>, convert: (nat, R) -> R): (o: Outcome<R>)
    requires WellFormed(entries) && ValidateDate(date) && AmountsValid(requests) && 0 < n <= |requests|
    ensures WellFormed(o.entries)
    ensures o.failure.None? ==> |o.saved| == n
    ensures o.failure.Some? ==> |o.saved| < n && (o.failure.value.RateFailed? || o.failure.value.LedgerFailed?)
    decreases n, 1
  {
    var prev := Served(entries, file, date, requests, n - 1, fetch, convert);
    if prev.failure.Some? then prev else ServedStep(entries, file, date, requests, n, fetch, convert)
  }

  /** The `n`-th request served after a run that has not failed so far. */
  function ServedStep<R>(entries: Entries<R>, file: LedgerFile<R>, date: string, requests: seq<Request>, n: nat,
                         fetch: Fetch<R>, convert: (nat, R) -> R): (o: Outcome<R>)
    requires WellFormed(entries) && ValidateDate(date) && AmountsValid(requests) && 0 < n <= |requests|
    requires Served(entries, file, date, requests, n - 1, fetch, convert).failure.None?
    ensures WellFormed(o.entries)
    ensures o.failure.None? ==> |o.saved| == n
    ensures o.failure.Some? ==> |o.saved| < n && (o.failure.value.RateFailed? || o.failure.value.LedgerFailed?)
    decreases n, 0
  {
    var prev := Served(entries, file, date, requests, n - 1, fetch, convert);
    assert requests[n - 1] in requests;
    Advance(prev, Conversion(prev.entries, prev.file, date, requests[n - 1], fetch, convert))
  }

  /** How the run moves on by one request that comes before any failure. */
  lemma ServedNext<R>(entries: Entries<R>, file: LedgerFile<R>, date: string, requests: seq<Request>, n: nat,
                      fetch: Fetch<R>, convert: (nat, R) -> R)
    requires WellFormed(entries) && ValidateDate(date) && AmountsValid(requests) && 0 < n <= |requests|
    requires Served(entries, file, date, requests, n - 1, fetch, convert).failure.None?
    ensures var prev := Served(entries, file, date, requests, n - 1, fetch, convert);
      && ValidateAmount(requests[n - 1].amount)
      && Served(entries, file, date, requests, n, fetch, convert) ==
         Advance(prev, Conversion(prev.entries, prev.file, date, requests[n - 1], fetch, convert))
  {
    assert requests[n - 1] in requests;
    assert Served(entries, file, date, requests, n, fetch, convert) == ServedLast(entries, file, date, requests, n, fetch, convert);
    assert ServedLast(entries, file, date, requests, n, fetch, convert) == ServedStep(entries, file, date, requests, n, fetch, convert);
  }

  /** A request after a failure changes nothing. */
  lemma StepAfterFailure<R>(entries: Entries<R>, file: LedgerFile<R>, date: string, requests: seq<Request>, n: nat,
                            fetch: Fetch<R>, convert: (nat, R) -> R)
    requires WellFormed(entries) && ValidateDate(date) && AmountsValid(requests) && 0 < n <= |requests|
    requires Served(entries, file, date, requests, n - 1, fetch, convert).failure.Some?
    ensures Served(entries, file, date, requests, n, fetch, convert) == Served(entries, file, date, requests, n - 1, fetch, convert)
  {
    assert Served(entries, file, date, requests, n, fetch, convert) == ServedLast(entries, file, date, requests, n, fetch, convert);
  }

  /**
   * A served request saves the record of its conversion, made with the rate the cache
   * gave, appends it to the log, and leaves its date and base in the cache.
   */
  lemma StepSaves<R>(entries: Entries<R>, file: LedgerFile<R>, date: string, requests: seq<Request>, n: nat,
                     fetch: Fetch<R>, convert: (nat, R) -> R)
    requires WellFormed(entries) && ValidateDate(date) && AmountsValid(requests) && 0 < n <= |requests|
    requires Served(entries, file, date, requests, n, fetch, convert).failure.None?
    ensures var prev := Served(entries, file, date, requests, n - 1, fetch, convert);
      var next := Served(entries, file, date, requests, n, fetch, convert);
      var request := requests[n - 1];
      var l := Resolve(prev.entries, date, request.base, request.target, fetch);
      && prev.failure.None?
      && l.rate.Ok?
      && Existing(prev.file).Ok?
      && next.saved == prev.saved + [next.saved[n - 1]]
      && RecordOf(date, next.saved[n - 1], request)
      && next.saved[n - 1].converted == convert(AmountCents(request.amount), l.rate.value)
      && next.file == AfterSave(prev.file, next.saved[n - 1])
      && CacheKey(date, request.base) in next.entries
  {
    var prev := Served(entries, file, date, requests, n - 1, fetch, convert);
    if prev.failure.Some? {
      StepAfterFailure(entries, file, date, requests, n, fetch, convert);
    } else {
      ServedNext(entries, file, date, requests, n, fetch, convert);
    }
  }

  /** A request that fails does so because its lookup failed or because the log could not be read. */
  lemma StepFails<R>(entries: Entries<R>, file: LedgerFile<R>, date: string, requests: seq<Request>, n: nat,
                     fetch: Fetch<R>, convert: (nat, R) -> R)
    requires WellFormed(entries) && ValidateDate(date) && AmountsValid(requests) && 0 < n <= |requests|
    requires Served(entries, file, date, requests, n - 1, fetch, convert).failure.None?
    requires Served(entries, file, date, requests, n, fetch, convert).failure.Some?
    ensures var prev := Served(entries, file, date, requests, n - 1, fetch, convert);
      var next := Served(entries, file, date, requests, n, fetch, convert);
      var request := requests[n - 1];
      var l := Resolve(prev.entries, date, request.base, request.target, fetch);
      && next.saved == prev.saved
      && next.file == prev.file
      && (l.rate.Err? ==> next.failure == Some(RateFailed(l.rate.error)))
      && (l.rate.Ok? ==> Existing(prev.file).Err? && next.failure == Some(LedgerFailed(Corrupt)))
  {
    ServedNext(entries, file, date, requests, n, fetch, convert);
  }

  /** The service is asked for the request's base exactly when the cache has no table for it. */
  lemma StepFetches<R>(entries: Entries<R>, file: LedgerFile<R>, date: string, requests: seq<Request>, n: nat,
                       fetch: Fetch<R>, convert: (nat, R) -> R)
    requires WellFormed(entries) && ValidateDate(date) && AmountsValid(requests) && 0 < n <= |requests|
    ensures var prev := Served(entries, file, date, requests, n - 1, fetch, convert);
      var next := Served(entries, file, date, requests, n, fetch, convert);
      var base := requests[n - 1].base;
      && (prev.failure.Some? || CacheKey(date, base) in prev.entries ==> next.fetched == prev.fetched)
      && (prev.failure.None? && CacheKey(date, base) !in prev.entries ==> next.fetched == prev.fetched + [base])
  {
    var prev := Served(entries, file, date, requests, n - 1, fetch, convert);
    if prev.failure.Some? {
      StepAfterFailure(entries, file, date, requests, n, fetch, convert);
    } else {
      ServedNext(entries, file, date, requests, n, fetch, convert);
    }
  }

  /** A lookup never removes a cache entry. */
  lemma StepKeepsKey<R>(entries: Entries<R>, file: LedgerFile<R>, date: string, requests: seq<Request>, n: nat,
                        key: string, fetch: Fetch<R>, convert: (nat, R) -> R)
    requires WellFormed(entries) && ValidateDate(date) && AmountsValid(requests) && 0 < n <= |requests|
    requires key in Served(entries, file, date, requests, n - 1, fetch, convert).entries
    ensures key in Served(entries, file, date, requests, n, fetch, convert).entries
  {
    var prev := Served(entries, file, date, requests, n - 1, fetch, convert);
    if prev.failure.Some? {
      StepAfterFailure(entries, file, date, requests, n, fetch, convert);
    } else {
      ServedNext(entries, file, date, requests, n, fetch, convert);
      var l := Resolve(prev.entries, date, requests[n - 1].base, requests[n - 1].target, fetch);
      assert key in l.entries;
    }
  }

  /** A step appends the one record it saves, or saves nothing and leaves the run failed. */
  lemma StepExtends<R>(entries: Entries<R>, file: LedgerFile<R>, date: string, requests: seq<Request>, n: nat,
                       fetch: Fetch<R>, convert: (nat, R) -> R)
    requires WellFormed(entries) && ValidateDate(date) && AmountsValid(requests) && 0 < n <= |requests|
    ensures var prev := Served(entries, file, date, requests, n - 1, fetch, convert);
      var next := Served(entries, file, date, requests, n, fetch, convert);
      && (next.failure.None? ==> prev.failure.None? && next.saved == prev.saved + [next.saved[n - 1]])
      && (next.failure.Some? ==> next.saved == prev.saved)
  {
    var prev := Served(entries, file, date, requests, n - 1, fetch, convert);
    var next := Served(entries, file, date, requests, n, fetch, convert);
    if prev.failure.Some? {
      StepAfterFailure(entries, file, date, requests, n, fetch, convert);
    } else if next.failure.Some? {
      StepFails(entries, file, date, requests, n, fetch, convert);
    } else {
      StepSaves(entries, file, date, requests, n, fetch, convert);
    }
  }

  /** Once a conversion has failed, serving further requests changes nothing. */
  lemma {:induction false} ServedAfterFailure<R>(entries: Entries<R>, file: LedgerFile<R>, date: string,
                                                 requests: seq<Request>, n: nat, m: nat,
                                                 fetch: Fetch<R>, convert: (nat, R) -> R)
    requires WellFormed(entries) && ValidateDate(date) && AmountsValid(requests) && n <= m <= |requests|
    requires Served(entries, file, date, requests, n, fetch, convert).failure.Some?
    ensures Served(entries, file, date, requests, m, fetch, convert) == Served(entries, file, date, requests, n, fetch, convert)
    decreases m
  {
    if m > n {
      ServedAfterFailure(entries, file, date, requests, n, m - 1, fetch, convert);
      StepAfterFailure(entries, file, date, requests, m, fetch, convert);
    }
  }

  /** A run that has not failed after `j` requests had not failed after fewer. */
  lemma {:induction false} NoFailureBefore<R>(entries: Entries<R>, file: LedgerFile<R>, date: string,
                                              requests: seq<Request>, i: nat, j: nat,
                                              fetch: Fetch<R>, convert: (nat, R) -> R)
    requires WellFormed(entries) && ValidateDate(date) && AmountsValid(requests) && i <= j <= |requests|
    requires Served(entries, file, date, requests, j, fetch, convert).failure.None?
    ensures Served(entries, file, date, requests, i, fetch, convert).failure.None?
    decreases j
  {
    if i < j {
      StepExtends(entries, file, date, requests, j, fetch, convert);
      NoFailureBefore(entries, file, date, requests, i, j - 1, fetch, convert);
    }
  }

  /** The k-th saved record is the one saved when the (k+1)-th request was served. */
  lemma {:induction false} SavedWhenServed<R>(entries: Entries<R>, file: LedgerFile<R>, date: string,
                                              requests: seq<Request>, n: nat, k: nat,
                                              fetch: Fetch<R>, convert: (nat, R) -> R)
    requires WellFormed(entries) && ValidateDate(date) && AmountsValid(requests) && n <= |requests|
    requires k < |Served(entries, file, date, requests, n, fetch, convert).saved|
    ensures k < n
    ensures Served(entries, file, date, requests, k + 1, fetch, convert).failure.None?
    ensures Served(entries, file, date, requests, n, fetch, convert).saved[k] ==
            Served(entries, file, date, requests, k + 1, fetch, convert).saved[k]
    decreases n
  {
    if n > k + 1 {
      StepExtends(entries, file, date, requests, n, fetch, convert);
      SavedWhenServed(entries, file, date, requests, n - 1, k, fetch, convert);
    }
  }

  /**
   * The k-th saved record converts the k-th request: the lookup it made found a rate,
   * the log was readable, and the stored amount is `convert` of the request's cents and
   * that rate.
   */
  lemma SavedRecord<R>(entries: Entries<R>, file: LedgerFile<R>, date: string, requests: seq<Request>, n: nat,
                       k: nat, fetch: Fetch<R>, convert: (nat, R) -> R)
    requires WellFormed(entries) && ValidateDate(date) && AmountsValid(requests) && n <= |requests|
    requires k < |Served(entries, file, date, requests, n, fetch, convert).saved|
    ensures var before := Served(entries, file, date, requests, k, fetch, convert);
      var saved := Served(entries, file, date, requests, n, fetch, convert).saved;
      var l := Resolve(before.entries, date, requests[k].base, requests[k].target, fetch);
      && before.failure.None?
      && l.rate.Ok?
      && Existing(before.file).Ok?
      && RecordOf(date, saved[k], requests[k])
      && saved[k].converted == convert(AmountCents(requests[k].amount), l.rate.value)
  {
    SavedWhenServed(entries, file, date, requests, n, k, fetch, convert);
    StepSaves(entries, file, date, requests, k + 1, fetch, convert);
  }

  /**
   * A run that ended in failure failed on the request after its last saved record:
   * either the rate lookup failed, and the run ends with that error, or the rate was
   * found and the existing log could not be read.
   */
  lemma {:induction false} FailureExplained<R>(entries: Entries<R>, file: LedgerFile<R>, date: string,
                                               requests: seq<Request>, n: nat,
                                               fetch: Fetch<R>, convert: (nat, R) -> R)
    requires WellFormed(entries) && ValidateDate(date) && AmountsValid(requests) && n <= |requests|
    requires Served(entries, file, date, requests, n, fetch, convert).failure.Some?
    ensures var o := Served(entries, file, date, requests, n, fetch, convert);
      var k := |o.saved|;
      var before := Served(entries, file, date, requests, k, fetch, convert);
      var l := Resolve(before.entries, date, requests[k].base, requests[k].target, fetch);
      && before.failure.None?
      && before.saved == o.saved
      && (l.rate.Err? ==> o.failure == Some(RateFailed(l.rate.error)))
      && (l.rate.Ok? ==> Existing(before.file).Err? && o.failure == Some(LedgerFailed(Corrupt)))
    decreases n
  {
    var prev := Served(entries, file, date, requests, n - 1, fetch, convert);
    if prev.failure.Some? {
      FailureExplained(entries, file, date, requests, n - 1, fetch, convert);
      StepAfterFailure(entries, file, date, requests, n, fetch, convert);
    } else {
      StepFails(entries, file, date, requests, n, fetch, convert);
    }
  }

  /** A cache entry, once there, stays there for the rest of the run. */
  lemma {:induction false} KeyPersists<R>(entries: Entries<R>, file: LedgerFile<R>, date: string,
                                          requests: seq<Request>, m: nat, n: nat, key: string,
                                          fetch: Fetch<R>, convert: (nat, R) -> R)
    requires WellFormed(entries) && ValidateDate(date) && AmountsValid(requests) && m <= n <= |requests|
    requires key in Served(entries, file, date, requests, m, fetch, convert).entries
    ensures key in Served(entries, file, date, requests, n, fetch, convert).entries
    decreases n - m
  {
    if m < n {
      StepKeepsKey(entries, file, date, requests, m + 1, key, fetch, convert);
      KeyPersists(entries, file, date, requests, m + 1, n, key, fetch, convert);
    }
  }

  /**
   * Within one run the service is asked at most once per base currency: once request
   * `i` has been served, a later request `j` with the same base is answered from the
   * cache and adds no fetch.
   */
  lemma NoSecondFetch<R>(entries: Entries<R>, file: LedgerFile<R>, date: string, requests: seq<Request>,
                         i: nat, j: nat, fetch: Fetch<R>, convert: (nat, R) -> R)
    requires WellFormed(entries) && ValidateDate(date) && AmountsValid(requests) && i < j < |requests|
    requires Served(entries, file, date, requests, j, fetch, convert).failure.None?
    requires requests[i].base == requests[j].base
    ensures Served(entries, file, date, requests, j + 1, fetch, convert).fetched ==
            Served(entries, file, date, requests, j, fetch, convert).fetched
  {
    var key := CacheKey(date, requests[i].base);
    NoFailureBefore(entries, file, date, requests, i + 1, j, fetch, convert);
    StepSaves(entries, file, date, requests, i + 1, fetch, convert);
    KeyPersists(entries, file, date, requests, i + 1, j, key, fetch, convert);
    StepFetches(entries, file, date, requests, j + 1, fetch, convert);
  }

  /**
   * The log after a run is the old log with the saved records appended, in order;
   * when the old log could not be read nothing is saved and it is left as it was.
   */
  lemma {:induction false} ServedLog<R>(entries: Entries<R>, file: LedgerFile<R>, date: string,
                                        requests: seq<Request>, n: nat,
                                        fetch: Fetch<R>, convert: (nat, R) -> R)
    requires WellFormed(entries) && ValidateDate(date) && AmountsValid(requests) && n <= |requests|
    ensures var o := Served(entries, file, date, requests, n, fetch, convert);
      && o.file == AfterSaves(file, o.saved)
      && (Existing(file).Err? ==> o.saved == [] && o.file == file)
    decreases n
  {
    if n > 0 {
      ServedLog(entries, file, date, requests, n - 1, fetch, convert);
      var prev := Served(entries, file, date, requests, n - 1, fetch, convert);
      var o := Served(entries, file, date, requests, n, fetch, convert);
      if prev.failure.Some? {
        StepAfterFailure(entries, file, date, requests, n, fetch, convert);
      } else if o.failure.Some? {
        StepFails(entries, file, date, requests, n, fetch, convert);
      } else {
        StepSaves(entries, file, date, requests, n, fetch, convert);
        AfterSavesAppend(file, prev.saved, o.saved[n - 1]);
      }
    }
  }

  /**
   * Every base the service was asked for is the base of a request, and the service is
   * asked at most once per request that was served or that failed.
   */
  lemma {:induction false} ServedFetches<R>(entries: Entries<R>, file: LedgerFile<R>, date: string,
                                            requests: seq<Request>, n: nat,
                                            fetch: Fetch<R>, convert: (nat, R) -> R)
    requires WellFormed(entries) && ValidateDate(date) && AmountsValid(requests) && n <= |requests|
    ensures var o := Served(entries, file, date, requests, n, fetch, convert);
      && (forall b :: b in o.fetched ==> exists r :: r in requests && r.base == b)
      && |o.fetched| <= |o.saved| + (if o.failure.Some? then 1 else 0)
    decreases n
  {
    if n > 0 {
      ServedFetches(entries, file, date, requests, n - 1, fetch, convert);
      var prev := Served(entries, file, date, requests, n - 1, fetch, convert);
      var o := Served(entries, file, date, requests, n, fetch, convert);
      StepFetches(entries, file, date, requests, n, fetch, convert);
      if prev.failure.Some? {
        StepAfterFailure(entries, file, date, requests, n, fetch, convert);
      } else if o.failure.Some? {
        StepFails(entries, file, date, requests, n, fetch, convert);
      }
      assert requests[n - 1] in requests;
    }
  }

  /** Every saved record is for at least 0.01, between two known currencies that differ. */
  lemma SavedSafe<R>(entries: Entries<R>, file: LedgerFile<R>, date: string, requests: seq<Request>, n: nat,
                     codes: seq<string>, fetch: Fetch<R>, convert: (nat, R) -> R)
    requires WellFormed(entries) && ValidateDate(date) && n <= |requests|
    requires forall r :: r in requests ==> WellFormedRequest(codes, r)
    ensures AmountsValid(requests)
    ensures forall r :: r in Served(entries, file, date, requests, n, fetch, convert).saved ==>
      r.amountCents >= 1 && ValidateCurrency(r.base, codes) && ValidateCurrency(r.target, codes) && r.base != r.target
  {
    var saved := Served(entries, file, date, requests, n, fetch, convert).saved;
    forall r | r in saved
      ensures r.amountCents >= 1 && ValidateCurrency(r.base, codes) && ValidateCurrency(r.target, codes) && r.base != r.target
    {
      var k :| 0 <= k < |saved| && saved[k] == r;
      SavedRecord(entries, file, date, requests, n, k, fetch, convert);
      assert requests[k] in requests;
    }
  }

  /**
   * The conversion of the request after the `i` served so far: the run moves from its
   * state after `i` requests to its state after `i + 1`.
   */
  method ServeRequest<R>(date: string, requests: seq<Request>, i: nat, cache: ExchangeRateCache<R>,
                         log: ConversionLog<R>, saved: seq<Record<R>>, ghost fetched: seq<string>,
                         ghost entries: Entries<R>, ghost file: LedgerFile<R>,
                         fetch: Fetch<R>, convert: (nat, R) -> R)
    returns (saved': seq<Record<R>>, ghost more: seq<string>, failure: Option<Ending>)
    requires cache.Valid() && ValidateDate(date) && AmountsValid(requests) && WellFormed(entries) && i < |requests|
    requires Served(entries, file, date, requests, i, fetch, convert) == Outcome(cache.entries, log.file, saved, fetched, None)
    modifies cache, log
    ensures cache.Valid()
    ensures cache.fetches == old(cache.fetches) + more
    ensures Served(entries, file, date, requests, i + 1, fetch, convert) ==
            Outcome(cache.entries, log.file, saved', fetched + more, failure)
  {
    ServedNext(entries, file, date, requests, i + 1, fetch, convert);
    var converted;
    converted, more := ConvertAndRecord(date, requests[i], cache, log, fetch, convert);
    if converted.Ok? {
      saved', failure := saved + [converted.value], None;
    } else {
      saved', failure := saved, Some(converted.error);
    }
  }

  /**
   * The requests of a session served in order against the shared cache and the log,
   * stopping at the first conversion that fails: the run `Served` describes.
   */
  method ServeAll<R>(date: string, requests: seq<Request>, cache: ExchangeRateCache<R>, log: ConversionLog<R>,
                     fetch: Fetch<R>, convert: (nat, R) -> R)
    returns (saved: seq<Record<R>>, ghost fetched: seq<string>, failure: Option<Ending>)
    requires cache.Valid() && ValidateDate(date) && AmountsValid(requests)
    modifies cache, log
    ensures cache.Valid()
    ensures cache.fetches == old(cache.fetches) + fetched
    ensures Served(old(cache.entries), old(log.file), date, requests, |requests|, fetch, convert) ==
            Outcome(cache.entries, log.file, saved, fetched, failure)
  {
    saved := [];
    fetched := [];
    failure := None;
    var i := 0;
    while failure.None? && i < |requests|
      invariant i <= |requests|
      invariant cache.Valid()
      invariant cache.fetches == old(cache.fetches) + fetched
      invariant Served(old(cache.entries), old(log.file), date, requests, i, fetch, convert) ==
                Outcome(cache.entries, log.file, saved, fetched, failure)
      decreases |requests| - i
    {
      ghost var more;
      saved, more, failure := ServeRequest(date, requests, i, cache, log, saved, fetched,
                                           old(cache.entries), old(log.file), fetch, convert);
      fetched := fetched + more;
      i := i + 1;
    }
    if failure.Some? {
      ServedAfterFailure(old(cache.entries), old(log.file), date, requests, i, |requests|, fetch, convert);
    }
  }

  /**
   * `main`. `convert` stands for `amount * exchangeRate` rounded to two decimals, the
   * converted amount that is printed and stored.
   */
  method Run<R>(args: seq<string>, lines: seq<string>, codes: seq<string>,
                cache: ExchangeRateCache<R>, log: ConversionLog<R>,
                fetch: Fetch<R>, convert: (nat, R) -> R)
    returns (ending: Ending, saved: seq<Record<R>>, ghost fetched: seq<string>)
    requires cache.Valid()
    modifies cache, log
    ensures cache.Valid()
    ensures cache.fetches == old(cache.fetches) + fetched
    ensures ending == Usage <==> !(|args| >= 1 && ValidateDate(args[0]))
    ensures ending == Usage ==> saved == [] && fetched == [] && unchanged(cache) && unchanged(log)
    ensures ending != Usage ==>
      var session := SessionFrom(codes, lines, 0);
      && AmountsValid(session.requests)
      && var o := Served(old(cache.entries), old(log.file), args[0], session.requests, |session.requests|, fetch, convert);
      && cache.entries == o.entries
      && log.file == o.file
      && saved == o.saved
      && fetched == o.fetched
      && ending == (if o.failure.Some? then o.failure.value else if session.endedByEnd then Finished else OutOfInput)
    ensures forall r :: r in saved ==>
      r.amountCents >= 1 && ValidateCurrency(r.base, codes) && ValidateCurrency(r.target, codes) && r.base != r.target
    ensures log.file == AfterSaves(old(log.file), saved)
    ensures Existing(old(log.file)).Err? ==> saved == []
    ensures forall b :: b in fetched ==> ValidateCurrency(b, codes)
    ensures |fetched| <= |saved| + (if ending.RateFailed? || ending.LedgerFailed? then 1 else 0)
  {
    if !(|args| >= 1 && ValidateDate(args[0])) {
      return Usage, [], [];
    }
    var date := args[0];
    var requests, endedByEnd := ReadSession(codes, lines);
    SessionRequestsWellFormed(codes, lines, 0);
    SavedSafe(cache.entries, log.file, date, requests, 0, codes, fetch, convert);
    var failure;
    saved, fetched, failure := ServeAll(date, requests, cache, log, fetch, convert);
    ending := if failure.Some? then failure.value else if endedByEnd then Finished else OutOfInput;
    SavedSafe(old(cache.entries), old(log.file), date, requests, |requests|, codes, fetch, convert);
    ServedLog(old(cache.entries), old(log.file), date, requests, |requests|, fetch, convert);
    ServedFetches(old(cache.entries), old(log.file), date, requests, |requests|, fetch, convert);
  }
}
