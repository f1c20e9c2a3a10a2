/**
 * The conversion log: `conversions.json`, a JSON array of conversion records that
 * each save reads in full, extends by one record and writes back in full.
 * The JSON text itself is not modelled: a file is missing, empty, an array of
 * records, or something that does not parse as an array.
 */
module Ledger {
  import opened Wrappers

  /**
   * One conversion as stored: date, amount (in hundredths), base and target currency,
   * and the converted amount. `R` stands for the program's `Double`: the type of the
   * rates and also of the converted amounts computed from them.
   */
  datatype Record<R> = Record(date: string, amountCents: nat, base: string, target: string, converted: R)

  datatype Content<R> = EmptyText | JsonArray(records: seq<Record<R>>) | NotAnArray

  datatype LedgerFile<R> = Missing | Present(content: Content<R>)

  datatype LedgerError = Corrupt

  /** The array a save starts from: a missing or empty file reads as []. */
  function Existing<R>(file: LedgerFile<R>): Result<seq<Record<R>>, LedgerError> {
    match file
    case Missing => Ok([])
    case Present(EmptyText) => Ok([])
    case Present(JsonArray(records)) => Ok(records)
    case Present(NotAnArray) => Err(Corrupt)
  }

  /**
   * The file after one save. A readable file gets back its records, in their order,
   * with the new one after them; an unreadable one stays as it was.
   */
  function AfterSave<R>(file: LedgerFile<R>, record: Record<R>): (f: LedgerFile<R>)
    ensures Existing(file).Ok? ==> Existing(f) == Ok(Existing(file).value + [record])
    ensures Existing(file).Err? ==> f == file
  {
    match Existing(file)
    case Ok(prior) => Present(JsonArray(prior + [record]))
    case Err(_) => file
  }

  /** The file after saving `records` one after another. */
  function AfterSaves<R>(file: LedgerFile<R>, records: seq<Record<R>>): LedgerFile<R>
    decreases |records|
  {
    if records == [] then file
    else AfterSaves(AfterSave(file, records[0]), records[1..])
  }

  /**
   * Saving N records and reading the log back gives the records that were there,
   * then the N new ones, field for field and in the order they were saved.
   */
  lemma {:induction false} ReadBackAfterSaves<R>(file: LedgerFile<R>, records: seq<Record<R>>)
    requires Existing(file).Ok?
    ensures Existing(AfterSaves(file, records)) == Ok(Existing(file).value + records)
    decreases |records|
  {
    if records != [] {
      var next := AfterSave(file, records[0]);
      assert AfterSaves(file, records) == AfterSaves(next, records[1..]);
      assert Existing(next) == Ok(Existing(file).value + [records[0]]);
      ReadBackAfterSaves(next, records[1..]);
      assert records == [records[0]] + records[1..];
      assert Existing(file).value + [records[0]] + records[1..] == Existing(file).value + records;
    } else {
      assert Existing(file).value + records == Existing(file).value;
    }
  }

  /** Saving one more record after a run of saves is the same as including it in the run. */
  lemma {:induction false} AfterSavesAppend<R>(file: LedgerFile<R>, records: seq<Record<R>>, record: Record<R>)
    ensures AfterSaves(file, records + [record]) == AfterSave(AfterSaves(file, records), record)
    decreases |records|
  {
    if records == [] {
      assert records + [record] == [record];
    } else {
      AfterSavesAppend(AfterSave(file, records[0]), records[1..], record);
      assert (records + [record])[1..] == records[1..] + [record];
    }
  }

  /** Starting with no file, the log holds exactly the saved records in order. */
  lemma FreshLogHoldsSaves<R>(records: seq<Record<R>>)
    ensures Existing(AfterSaves(Missing, records)) == Ok(records)
    ensures Existing(AfterSaves(Present(EmptyText), records)) == Ok(records)
  {
    ReadBackAfterSaves(Missing, records);
    ReadBackAfterSaves(Present(EmptyText), records);
    assert [] + records == records;
  }

  /** The log file as the program sees it. */
  class ConversionLog<R> {
    var file: LedgerFile<R>

    constructor (file: LedgerFile<R>)
      ensures this.file == file
    {
      this.file := file;
    }

    /** `saveConversionToJSON`: read the array, append the record, write the array back. */
    method SaveConversion(record: Record<R>) returns (outcome: Result<(), LedgerError>)
      modifies this
      ensures file == AfterSave(old(file), record)
      ensures outcome.Ok? <==> Existing(old(file)).Ok?
      ensures outcome.Err? ==> outcome.error == Corrupt
    {
      var jsonArray: seq<Record<R>>;
      if file.Present? {
        match file.content
        case EmptyText =>
          jsonArray := [];
        case JsonArray(records) =>
          jsonArray := records;
        case NotAnArray =>
          return Err(Corrupt);
      } else {
        jsonArray := [];
      }
      jsonArray := jsonArray + [record];
      file := Present(JsonArray(jsonArray));
      outcome := Ok(());
    }
  }
}
