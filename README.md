# Currency converter — a Dafny model of its core

The command-line currency converter takes a date argument. It then reads
(amount, base currency, target currency) triples from the console until the user
types `END`. For each triple it looks up the exchange rate through a process-wide
cache, which calls a remote rate service on a miss. It then appends the conversion
to the JSON log `conversions.json`. This project models the four parts of
`CurrencyConvertion.kt` that carry logic, and proves what they promise:

- **Validation** (`validation.dfy`): the three validators `validateDate`,
  `validateAmount` and `validateCurrency`, written character by character.
  - Each is proved to accept exactly the language of the regular expression the
    program matches with.
  - An accepted amount has an exact value in hundredths (`AmountCents`).
  - Formatting an amount with two decimals and reading it back is proved to be the
    identity.
- **Interaction** (`interaction.dfy`): the prompt cycle of `main` over a sequence of
  already trimmed, upper-cased input lines.
  - `END` is honoured at the first amount prompt only.
  - Three retry loops read the amount (at least 0.01), the base currency, and a
    target that differs from the base.
  - `SessionFrom` is the specification of a whole session: every request it asks
    for, and whether `END` ended it.
- **RateCache** (`rate_cache.dfy`): `getExchangeRate` and `exchangeRateCache`.
  - `ExchangeRateCache` is a class over the two-level map.
  - `Resolve` is the pure specification of one lookup.
  - The rate service is an oracle `fetch`, and the rate type is abstract.
- **Ledger** (`ledger.dfy`): the read–append–rewrite of `saveConversionToJSON`.
  - `ConversionLog` is a class over the file state.
  - `AfterSave` and `AfterSaves` specify what the file holds after saves.
- **Converter** (`converter.dfy`): `main` wires everything together.
  - `Conversion` is one conversion on values; `ConvertAndRecord` does it on the
    shared cache and the log.
  - `Served` is the specification of the loop over a session's requests: each is
    converted in turn until one fails.
  - `Run` checks the date argument, reads the session, and serves its requests
    through the cache and the log. It stops at `END`, at the end of input, or at
    the first failure.
  - A failure is a rate call that fails, a rate missing from the table, or an
    unreadable log. Each is an uncaught exception that ends the program.

Amounts are exact integers of hundredths. The converted amount is produced by a
function parameter `convert`, which stands for `amount * exchangeRate` rounded to
two decimals.

Two consequences of the code's order of operations:
- A fetched table that lacks the target currency is still stored in the cache before
  the lookup fails: the store at line 115 comes before `getDouble` at line 116.
- Rate and log failures end the run, as the uncaught exceptions do.

## Model

| member | source | states |
|---|---|---|
| Validation.ValidateDate | src/main/kotlin/org/yordanoffnikolay/currencyconvertion/CurrencyConvertion.kt:81-83 | `validateDate` as a per-position template: length 10, digits except `-` at positions 4 and 7 |
| Validation.DateAccepts | src/main/kotlin/org/yordanoffnikolay/currencyconvertion/CurrencyConvertion.kt:81-83 | every year, month and day of 4, 2 and 2 digits joined by `-` is accepted |
| Validation.DateSplits | src/main/kotlin/org/yordanoffnikolay/currencyconvertion/CurrencyConvertion.kt:81-83 | every accepted date is 4 digits, `-`, 2 digits, `-`, 2 digits (with DateAccepts: exactly the regex language) |
| Validation.DateIgnoresCalendar | src/main/kotlin/org/yordanoffnikolay/currencyconvertion/CurrencyConvertion.kt:81-83 | "2024-13-99" and "2024-02-30" pass; "2024-1-01", "24-01-01" and "2024/01/01" fail |
| Validation.ValidateAmount | src/main/kotlin/org/yordanoffnikolay/currencyconvertion/CurrencyConvertion.kt:85-87 | definition, no contract of its own: `validateAmount` as a left-to-right matcher; AmountCharacterised states its language |
| Validation.ScanMeaning | src/main/kotlin/org/yordanoffnikolay/currencyconvertion/CurrencyConvertion.kt:85-87 | what each state of the left-to-right amount matcher says about the text read so far |
| Validation.AmountCharacterised | src/main/kotlin/org/yordanoffnikolay/currencyconvertion/CurrencyConvertion.kt:85-87 | `validateAmount(s)` holds iff `s` is one or more digits, optionally followed by `.` and one or two digits |
| Validation.AmountAccepts | src/main/kotlin/org/yordanoffnikolay/currencyconvertion/CurrencyConvertion.kt:85-87 | digits, and digits `.` one or two digits, are accepted |
| Validation.AmountRejects | src/main/kotlin/org/yordanoffnikolay/currencyconvertion/CurrencyConvertion.kt:85-87 | the empty string, a leading `-`, a trailing `.` and three or more decimals are rejected |
| Validation.AmountCents | src/main/kotlin/org/yordanoffnikolay/currencyconvertion/CurrencyConvertion.kt:36 | definition, no contract of its own: `input.toDouble()` of an accepted amount as an exact number of hundredths; WholeAmount, OneDecimalAmount and TwoDecimalsAmount state its value |
| Validation.AmountAccepted | src/main/kotlin/org/yordanoffnikolay/currencyconvertion/CurrencyConvertion.kt:29 | definition, no contract of its own: the amount loop stops on a line that matches the pattern and is worth at least 0.01 |
| Validation.WholeAmount | src/main/kotlin/org/yordanoffnikolay/currencyconvertion/CurrencyConvertion.kt:36 | a whole number `w` is valid and worth `w` × 100 hundredths |
| Validation.OneDecimalAmount | src/main/kotlin/org/yordanoffnikolay/currencyconvertion/CurrencyConvertion.kt:36 | `w.d` is valid and worth `w` × 100 + `d` × 10 hundredths |
| Validation.TwoDecimalsAmount | src/main/kotlin/org/yordanoffnikolay/currencyconvertion/CurrencyConvertion.kt:36 | `w.dd` is valid and worth `w` × 100 + `d0` × 10 + `d1` hundredths |
| Validation.AmountZeroIffAllZeros | src/main/kotlin/org/yordanoffnikolay/currencyconvertion/CurrencyConvertion.kt:29 | a pattern-valid amount is below 0.01 exactly when all its digits are zero, which is when the amount loop re-prompts |
| Validation.ValueOfDigits | src/main/kotlin/org/yordanoffnikolay/currencyconvertion/CurrencyConvertion.kt:142 | the decimal digits of `n`, read back, are worth `n` |
| Validation.FormatCents | src/main/kotlin/org/yordanoffnikolay/currencyconvertion/CurrencyConvertion.kt:142 | `String.format("%.2f", amount)` of an amount in hundredths ends in `.` and two digits; FormatParsesBack states the round trip |
| Validation.FormatParsesBack | src/main/kotlin/org/yordanoffnikolay/currencyconvertion/CurrencyConvertion.kt:142 | `%.2f` of an amount passes `validateAmount` and reads back to the same number of hundredths |
| Validation.AlternativesOfJoin | src/main/kotlin/org/yordanoffnikolay/currencyconvertion/CurrencyConvertion.kt:90 | splitting the `\|`-joined code list at `\|` gives the codes back in order |
| Validation.ValidateCurrency | src/main/kotlin/org/yordanoffnikolay/currencyconvertion/CurrencyConvertion.kt:89-91 | definition, no contract of its own: a full match of the `\|`-joined code list read as an alternation; CurrencyIsMembership states what it accepts |
| Validation.CurrencyIsMembership | src/main/kotlin/org/yordanoffnikolay/currencyconvertion/CurrencyConvertion.kt:89-91 | for a non-empty list of letter codes, `validateCurrency(s)` holds iff `s` equals one code in full |
| Validation.CurrencyWithNoCodes | src/main/kotlin/org/yordanoffnikolay/currencyconvertion/CurrencyConvertion.kt:89-91 | with no known codes only the empty string matches the empty pattern |
| Interaction.FirstAccepted | src/main/kotlin/org/yordanoffnikolay/currencyconvertion/CurrencyConvertion.kt:28-36 | a retry loop stops, if at all, on a line inside the input at or after where it started |
| Interaction.FirstAcceptedSound | src/main/kotlin/org/yordanoffnikolay/currencyconvertion/CurrencyConvertion.kt:28-36 | the line a retry loop stops on is accepted, and every line before it was rejected and re-prompted |
| Interaction.CycleAt | src/main/kotlin/org/yordanoffnikolay/currencyconvertion/CurrencyConvertion.kt:25-61 | definition, no contract of its own: one pass of the outer loop ends at END, at the end of input, or with an accepted amount, base and target; CycleSound, CycleComplete and CycleProgress state it |
| Interaction.CycleSound | src/main/kotlin/org/yordanoffnikolay/currencyconvertion/CurrencyConvertion.kt:25-61 | END stops only as the first line of a cycle; an accepted cycle has an amount of at least 0.01, a known base, and a known target other than the base, read in order, with every line between them rejected |
| Interaction.CycleComplete | src/main/kotlin/org/yordanoffnikolay/currencyconvertion/CurrencyConvertion.kt:25-61 | a cycle not started by END whose lines hold an accepted amount, then a known code, then a known code other than that one, is accepted: a cycle runs out only when the input does |
| Interaction.CycleProgress | src/main/kotlin/org/yordanoffnikolay/currencyconvertion/CurrencyConvertion.kt:25-61 | an accepted cycle consumes at least one line and stays within the input |
| Interaction.ReadUntilAccepted | src/main/kotlin/org/yordanoffnikolay/currencyconvertion/CurrencyConvertion.kt:28-36 | the retry loop as a `while` loop returns the first accepted line |
| Interaction.NextCycle | src/main/kotlin/org/yordanoffnikolay/currencyconvertion/CurrencyConvertion.kt:25-61 | one pass of the outer loop body, through its three retry loops, computes the cycle `CycleAt` specifies |
| Interaction.SessionRequestsWellFormed | src/main/kotlin/org/yordanoffnikolay/currencyconvertion/CurrencyConvertion.kt:28-61 | every request of a session has an amount of at least 0.01 and two known currencies that differ |
| Interaction.SessionFrom | src/main/kotlin/org/yordanoffnikolay/currencyconvertion/CurrencyConvertion.kt:25-70 | definition, no contract of its own: the requests of a whole session, cycle after cycle, and whether END ended it; ReadSession computes it |
| Interaction.AcceptedWellFormed | src/main/kotlin/org/yordanoffnikolay/currencyconvertion/CurrencyConvertion.kt:28-61 | the request of an accepted cycle is one a conversion can act on |
| Interaction.SessionAdvance | src/main/kotlin/org/yordanoffnikolay/currencyconvertion/CurrencyConvertion.kt:25-69 | served requests followed by the rest of the session keep the whole session after one more accepted cycle |
| Interaction.ReadSession | src/main/kotlin/org/yordanoffnikolay/currencyconvertion/CurrencyConvertion.kt:25-69 | the outer prompt loop, run cycle after cycle, collects exactly the session's requests and how it ended |
| Interaction.OneConversionSession | src/main/kotlin/org/yordanoffnikolay/currencyconvertion/CurrencyConvertion.kt:25-70 | an accepted amount, a known base, a known target other than the base, then END: the session asks for exactly that one conversion and ends by END |
| Interaction.UsdToEurSession | src/main/kotlin/org/yordanoffnikolay/currencyconvertion/CurrencyConvertion.kt:25-70 | the input `100.00`, `USD`, `EUR`, `END` with known codes USD and EUR asks for one conversion, 100.00 from USD to EUR, and ends by END |
| RateCache.CacheKey | src/main/kotlin/org/yordanoffnikolay/currencyconvertion/CurrencyConvertion.kt:100 | definition, no contract of its own: the key `"$date-$base"`; CacheKeyInjective states that it determines the date and the base |
| RateCache.CacheKeyInjective | src/main/kotlin/org/yordanoffnikolay/currencyconvertion/CurrencyConvertion.kt:100 | for well-formed dates, the key `"$date-$base"` determines the date and the base |
| RateCache.KeyHoldsItsDate | src/main/kotlin/org/yordanoffnikolay/currencyconvertion/CurrencyConvertion.kt:101-102 | in a cache filled by lookups, a present key's inner map holds its date, so the `!!` on the hit path cannot fail |
| RateCache.RateIn | src/main/kotlin/org/yordanoffnikolay/currencyconvertion/CurrencyConvertion.kt:102 | definition, no contract of its own: `getDouble(target)` gives the table's rate when the target is present and fails with RateNotFound otherwise |
| RateCache.Resolve | src/main/kotlin/org/yordanoffnikolay/currencyconvertion/CurrencyConvertion.kt:100-116 | a hit fetches nothing and changes nothing; a miss fetches once and stores `date ↦ table` under the key, even when the target is missing; a failed fetch stores nothing; other keys never change; the answer comes from the stored table |
| RateCache.SecondLookupHits | src/main/kotlin/org/yordanoffnikolay/currencyconvertion/CurrencyConvertion.kt:100-116 | two lookups for the same date and base, with any targets, fetch at most once unless the first fetch failed |
| RateCache.FailedFetchIsRetried | src/main/kotlin/org/yordanoffnikolay/currencyconvertion/CurrencyConvertion.kt:111-115 | a failed fetch is not remembered: the next lookup for that key fetches again |
| RateCache.ExchangeRateCache.constructor | src/main/kotlin/org/yordanoffnikolay/currencyconvertion/CurrencyConvertion.kt:152 | the cache starts empty and well formed |
| RateCache.ExchangeRateCache.GetExchangeRate | src/main/kotlin/org/yordanoffnikolay/currencyconvertion/CurrencyConvertion.kt:93-117 | the in-place lookup leaves exactly the entries `Resolve` specifies, returns its answer, and logs a fetch of `base` exactly on a miss |
| Ledger.Existing | src/main/kotlin/org/yordanoffnikolay/currencyconvertion/CurrencyConvertion.kt:129-138 | definition, no contract of its own: a missing or empty file holds no records, an array holds its records, and any other content cannot be read (Corrupt) |
| Ledger.AfterSave | src/main/kotlin/org/yordanoffnikolay/currencyconvertion/CurrencyConvertion.kt:126-149 | a readable log reads back as its old records followed by the new one; an unreadable one is left as it was |
| Ledger.ReadBackAfterSaves | src/main/kotlin/org/yordanoffnikolay/currencyconvertion/CurrencyConvertion.kt:126-149 | after N saves the log reads back as the old records followed by the N new ones, in order and field for field |
| Ledger.AfterSavesAppend | src/main/kotlin/org/yordanoffnikolay/currencyconvertion/CurrencyConvertion.kt:126-149 | one more save after a run of saves is the run extended by that record |
| Ledger.FreshLogHoldsSaves | src/main/kotlin/org/yordanoffnikolay/currencyconvertion/CurrencyConvertion.kt:129-138 | starting from a missing or empty file, the log holds exactly the saved records in order |
| Ledger.ConversionLog.SaveConversion | src/main/kotlin/org/yordanoffnikolay/currencyconvertion/CurrencyConvertion.kt:119-149 | the file becomes `AfterSave` of the old file; the save succeeds iff the old content was missing, empty or an array |
| Converter.RecordOf | src/main/kotlin/org/yordanoffnikolay/currencyconvertion/CurrencyConvertion.kt:140-146 | definition, no contract of its own: a stored record holds the run's date, the request's amount in hundredths, its base and its target |
| Converter.Conversion | src/main/kotlin/org/yordanoffnikolay/currencyconvertion/CurrencyConvertion.kt:63-67 | one conversion on values leaves a well-formed cache; ConversionFacts states what it does |
| Converter.ConversionFacts | src/main/kotlin/org/yordanoffnikolay/currencyconvertion/CurrencyConvertion.kt:63-67 | the cache is the one the lookup leaves; the service is called exactly when the cache has no table for the date and base; the conversion succeeds iff the rate was found and the old log is readable, and then its record converts the request's hundredths with that rate and is appended to the log; on failure the log is unchanged and the error is the lookup's, or Corrupt for an unreadable log |
| Converter.ConvertAndRecord | src/main/kotlin/org/yordanoffnikolay/currencyconvertion/CurrencyConvertion.kt:63-67 | in place: the cache, the log, the bases fetched and the answer are exactly those `Conversion` gives for the old cache and log |
| Converter.Served | src/main/kotlin/org/yordanoffnikolay/currencyconvertion/CurrencyConvertion.kt:25-70 | the requests served one after another from a cache and a log: with no failure each of the first n requests saved one record; a failure saved fewer and is a rate failure or a log failure |
| Converter.StepFetches | src/main/kotlin/org/yordanoffnikolay/currencyconvertion/CurrencyConvertion.kt:100-116 | serving a request asks the service for its base exactly when the run has not failed and no earlier lookup left a table for the date and base |
| Converter.StepFails | src/main/kotlin/org/yordanoffnikolay/currencyconvertion/CurrencyConvertion.kt:63-67 | the request that fails saves nothing and leaves the log as it was; it fails with the lookup's error, or, the rate found, because the log cannot be read |
| Converter.ServedAfterFailure | src/main/kotlin/org/yordanoffnikolay/currencyconvertion/CurrencyConvertion.kt:63-67 | after a failure nothing more is converted, fetched or saved: the exception ends `main` |
| Converter.SavedRecord | src/main/kotlin/org/yordanoffnikolay/currencyconvertion/CurrencyConvertion.kt:63-67 | the k-th saved record converts the k-th request: its lookup found a rate, the log was readable, and the stored amount is `convert` of the request's hundredths and that rate |
| Converter.FailureExplained | src/main/kotlin/org/yordanoffnikolay/currencyconvertion/CurrencyConvertion.kt:63-67 | a run that failed did so on the request right after its last saved record, with that lookup's error, or, the rate found, because the log could not be read |
| Converter.KeyPersists | src/main/kotlin/org/yordanoffnikolay/currencyconvertion/CurrencyConvertion.kt:100-115 | a cache entry, once present, stays for the rest of the run |
| Converter.NoSecondFetch | src/main/kotlin/org/yordanoffnikolay/currencyconvertion/CurrencyConvertion.kt:100-103 | a request whose base an earlier served request of the same run already had is answered from the cache and fetches nothing |
| Converter.ServedLog | src/main/kotlin/org/yordanoffnikolay/currencyconvertion/CurrencyConvertion.kt:119-149 | the log after a run is the old log after the saved records, in order; an unreadable old log means nothing was saved and the file is unchanged |
| Converter.ServedFetches | src/main/kotlin/org/yordanoffnikolay/currencyconvertion/CurrencyConvertion.kt:100-115 | every base fetched is the base of a request, and there is at most one fetch per saved record plus one for the failure that ended the run |
| Converter.SavedSafe | src/main/kotlin/org/yordanoffnikolay/currencyconvertion/CurrencyConvertion.kt:28-67 | records saved for well-formed requests have an amount of at least 0.01 and two known, different currencies |
| Converter.ServeRequest | src/main/kotlin/org/yordanoffnikolay/currencyconvertion/CurrencyConvertion.kt:63-67 | in place: serving the next request moves the cache, the log, the saved records and the fetch log from the run after `i` requests to the run after `i + 1` |
| Converter.ServeAll | src/main/kotlin/org/yordanoffnikolay/currencyconvertion/CurrencyConvertion.kt:25-70 | in place: the loop over the session's requests leaves the cache, the log, the saved records, the fetch log and the failure of `Served` over all of them |
| Converter.Run | src/main/kotlin/org/yordanoffnikolay/currencyconvertion/CurrencyConvertion.kt:13-70 | see the list below the table |

`Converter.Run` is `main`. Its contract states the following:
- A missing or malformed date argument, and only that, ends the run with a usage
  message and touches nothing.
- Otherwise the cache, the log, the saved records, the bases fetched and the ending
  are those of `Served` over the requests of the session (`SessionFrom`). On END or
  at the end of input every request was served; otherwise the ending is the failure.
- Every saved record has an amount of at least 0.01 and two known currencies that
  differ.
- The log is the old log after these saves.
- An unreadable log means nothing was saved.
- The service was called only for known base currencies, and at most once per saved
  record, plus once for the failure that ended the run.

The lemmas about `Served` then say what those records and that ending are:
`SavedRecord` (each record converts its request with the rate the cache gave),
`FailureExplained` (which request failed and why) and `NoSecondFetch` (a base is
fetched at most once per run).

## Left out

- HTTP and JSON: the request to the rate service and the parsing of its reply (lines 105-114) are the oracle `fetch`. It returns a rate table or a `NetworkError`/`ApiError`.
- `loadApiKey` and the config file (lines 14, 74-79) are not modelled: they are file I/O before the loop.
- Floating point: rates are an abstract type `R`, and the product `amount * exchangeRate` with its `%.2f` rounding (lines 64-65, 145) is the parameter `convert`.
  - Stored amounts are exact hundredths.
  - Binary doubles, which lose hundredths above about 2^53 / 100, are not modelled.
  - Amounts or converted amounts beyond the range of a double are not modelled. In the program, `toDouble()` gives Infinity for such an amount, which passes the check at line 29. `JSONObject.put` then throws at line 142 or 145, so the run ends and nothing is written.
  - The locale's decimal separator in `String.format` is taken to be `.`.
- The JSON text of `conversions.json`, its 4-space pretty printing, and the reading and writing of the file (lines 126, 130, 149) are not modelled. The file is one of four states: missing, empty, an array of records, or content that is not an array.
- `ConcurrentHashMap` thread safety (lines 10, 115, 152) is not modelled: the program is single-threaded.
- `Currency.getAvailableCurrencies()` (line 90) is the parameter `codes`.
  - `trim()` and `uppercase(Locale.getDefault())` (lines 26, 31, 41, 52) are assumed already applied: the input is a sequence of normalised lines.
  - The end of input, where `readln()` throws, ends the session as `OutOfInput`.
- `println` prompts and messages (lines 18, 23, 30, 38, 43, 49, 54, 57, 65, 68-69) are output only and are not modelled.
- Converter.Run: it first reads every cycle of the session (`ReadSession`) and then serves the requests in a second loop. The program instead reads a cycle, converts, and reads the next one.
  - Because the input is a fixed sequence of lines and prompts are not modelled, the two orders produce the same endings, records, fetches and log.
  - The model does not capture the interleaving of prompts with conversions.
- Converter.Run: the service calls are stated as a ghost log of base currencies (`fetched`). Time, and the other parts of each HTTP request, are not modelled.
- Converter.Conversion: it saves a record for any accepted amount, however large. In the program the save throws when the amount or the converted amount overflows a double (lines 142, 145), so that conversion fails.
- Converter.ConversionFacts: it promises that a record is saved even when its amount or converted amount is beyond the range of a double, which the program does not do. Within that range it states what the program does.
- Converter.SavedRecord: it can include such an oversized record among those saved. The program would have ended the run at that conversion.
- Converter.ServedLog: the log it states can include such an oversized record. The program writes no file for that conversion.
