/**
 * The three input validators of the converter, written character by character,
 * each proved to accept exactly the language of the regular expression the
 * program matches against:
 *  - dates:      `\d{4}-\d\d-\d\d`
 *  - amounts:    `\d+(\.\d{1,2})?`, plus the exact value of an accepted amount in cents
 *  - currencies: the alternation of all known currency codes joined with '|'
 * Kotlin's `String.matches` demands a match of the WHOLE string, and so do these.
 */
module Validation {

  predicate IsDigit(c: char) {
    '0' <= c <= '9'
  }

  predicate AllDigits(s: string) {
    forall i :: 0 <= i < |s| ==> IsDigit(s[i])
  }

  function DigitValue(c: char): (d: nat)
    requires IsDigit(c)
    ensures d < 10
  {
    (c as int) - ('0' as int)
  }

  function DigitChar(d: nat): (c: char)
    requires d < 10
    ensures IsDigit(c) && DigitValue(c) == d
  {
    (('0' as int) + d) as char
  }

  // ---------------------------------------------------------------------------
  // Dates
  // ---------------------------------------------------------------------------

  /** The shape of `\d{4}-\d\d-\d\d`, one character per position; 'd' stands for any digit. */
  const DateTemplate: string := "dddd-dd-dd"

  predicate FitsTemplate(t: char, c: char) {
    if t == 'd' then IsDigit(c) else c == t
  }

  /** `validateDate`: a fixed-shape check with no calendar check at all. */
  predicate ValidateDate(s: string) {
    |s| == |DateTemplate| && forall i :: 0 <= i < |s| ==> FitsTemplate(DateTemplate[i], s[i])
  }

  /** Every year, month and day made of 4, 2 and 2 digits is accepted, whatever their values. */
  lemma DateAccepts(y: string, m: string, d: string)
    requires |y| == 4 && |m| == 2 && |d| == 2
    requires AllDigits(y) && AllDigits(m) && AllDigits(d)
    ensures ValidateDate(y + "-" + m + "-" + d)
  {
    var s := y + "-" + m + "-" + d;
    forall i | 0 <= i < |s| ensures FitsTemplate(DateTemplate[i], s[i]) {
      if i < 4 { assert s[i] == y[i]; }
      else if 5 <= i < 7 { assert s[i] == m[i - 5]; }
      else if 8 <= i { assert s[i] == d[i - 8]; }
    }
  }

  /** Every accepted date is 4 digits, '-', 2 digits, '-', 2 digits. */
  lemma DateSplits(s: string)
    requires ValidateDate(s)
    ensures |s| == 10 && s == s[..4] + "-" + s[5..7] + "-" + s[8..]
    ensures AllDigits(s[..4]) && AllDigits(s[5..7]) && AllDigits(s[8..])
  {
    assert s[4] == '-' && s[7] == '-' by {
      assert FitsTemplate(DateTemplate[4], s[4]);
      assert FitsTemplate(DateTemplate[7], s[7]);
    }
    forall i | 0 <= i < 10 && i != 4 && i != 7 ensures IsDigit(s[i]) {
      assert FitsTemplate(DateTemplate[i], s[i]);
    }
    assert s == s[..4] + "-" + s[5..7] + "-" + s[8..];
  }

  /** Calendar-invalid dates pass; a missing leading zero does not. */
  lemma DateIgnoresCalendar()
    ensures ValidateDate("2024-13-99") && ValidateDate("2024-02-30")
    ensures !ValidateDate("2024-1-01") && !ValidateDate("24-01-01") && !ValidateDate("2024/01/01")
  {
    DateAccepts("2024", "13", "99");
    DateAccepts("2024", "02", "30");
    assert !FitsTemplate(DateTemplate[4], "2024/01/01"[4]);
  }

  // ---------------------------------------------------------------------------
  // Amounts
  // ---------------------------------------------------------------------------

  /** The states of a left-to-right matcher for `\d+(\.\d{1,2})?`. */
  datatype AmountState = Start | Whole | Point | Fraction1 | Fraction2 | Reject

  function AmountStep(q: AmountState, c: char): AmountState {
    match q
    case Start => if IsDigit(c) then Whole else Reject
    case Whole => if IsDigit(c) then Whole else if c == '.' then Point else Reject
    case Point => if IsDigit(c) then Fraction1 else Reject
    case Fraction1 => if IsDigit(c) then Fraction2 else Reject
    case Fraction2 => Reject
    case Reject => Reject
  }

  /** The matcher's state after reading all of `s`, one character at a time from the left. */
  function AmountScan(s: string): AmountState {
    if s == [] then Start else AmountStep(AmountScan(s[..|s| - 1]), s[|s| - 1])
  }

  /** `validateAmount`: the matcher ends in an accepting state. */
  predicate ValidateAmount(s: string) {
    AmountScan(s) == Whole || AmountScan(s) == Fraction1 || AmountScan(s) == Fraction2
  }

  /** The language of `\d+(\.\d{1,2})?`: digits, optionally a point and one or two more digits. */
  ghost predicate AmountShape(s: string) {
    || (|s| >= 1 && AllDigits(s))
    || (exists k :: 1 <= k < |s| && s[k] == '.' && 1 <= |s| - k - 1 <= 2 && AllDigits(s[..k]) && AllDigits(s[k + 1..]))
  }

  lemma ScanPrefix(s: string, j: nat)
    requires j < |s|
    ensures AmountScan(s[..j + 1]) == AmountStep(AmountScan(s[..j]), s[j])
  {
    assert s[..j + 1][..j] == s[..j];
  }

  lemma {:induction false} ScanDigits(w: string)
    requires |w| >= 1 && AllDigits(w)
    ensures AmountScan(w) == Whole
  {
    if |w| > 1 {
      ScanDigits(w[..|w| - 1]);
    }
  }

  /** What each end state of the matcher says about the text read so far. */
  lemma {:induction false} ScanMeaning(s: string)
    ensures AmountScan(s) == Start ==> s == []
    ensures AmountScan(s) == Whole ==> |s| >= 1 && AllDigits(s)
    ensures AmountScan(s) == Point ==> |s| >= 2 && s[|s| - 1] == '.' && AllDigits(s[..|s| - 1])
    ensures AmountScan(s) == Fraction1 ==>
      |s| >= 3 && s[|s| - 2] == '.' && IsDigit(s[|s| - 1]) && AllDigits(s[..|s| - 2])
    ensures AmountScan(s) == Fraction2 ==>
      |s| >= 4 && s[|s| - 3] == '.' && AllDigits(s[|s| - 2..]) && AllDigits(s[..|s| - 3])
  {
    if s != [] {
      var p := s[..|s| - 1];
      ScanMeaning(p);
      assert s == p + [s[|s| - 1]];
      match AmountScan(p)
      case Start =>
      case Whole =>
      case Point =>
        assert p[..|p| - 1] == s[..|s| - 2];
      case Fraction1 =>
        assert p[..|p| - 2] == s[..|s| - 3];
        assert s[|s| - 2..] == [p[|p| - 1], s[|s| - 1]];
      case Fraction2 =>
      case Reject =>
    }
  }

  /** `validateAmount` accepts exactly the language of `\d+(\.\d{1,2})?`. */
  lemma AmountCharacterised(s: string)
    ensures ValidateAmount(s) <==> AmountShape(s)
  {
    ScanMeaning(s);
    if AmountScan(s) == Fraction1 {
      var k := |s| - 2;
      assert s[k + 1..] == [s[|s| - 1]];
      assert 1 <= k < |s| && s[k] == '.' && 1 <= |s| - k - 1 <= 2 && AllDigits(s[..k]) && AllDigits(s[k + 1..]);
    } else if AmountScan(s) == Fraction2 {
      var k := |s| - 3;
      assert s[k + 1..] == s[|s| - 2..];
      assert 1 <= k < |s| && s[k] == '.' && 1 <= |s| - k - 1 <= 2 && AllDigits(s[..k]) && AllDigits(s[k + 1..]);
    }
    if AmountShape(s) {
      if |s| >= 1 && AllDigits(s) {
        ScanDigits(s);
      } else {
        var k :| 1 <= k < |s| && s[k] == '.' && 1 <= |s| - k - 1 <= 2 && AllDigits(s[..k]) && AllDigits(s[k + 1..]);
        ScanDigits(s[..k]);
        ScanPrefix(s, k);
        assert s[k + 1] == s[k + 1..][0];
        ScanPrefix(s, k + 1);
        if |s| - k - 1 == 2 {
          assert s[k + 2] == s[k + 1..][1];
          ScanPrefix(s, k + 2);
          assert s[..k + 3] == s;
        } else {
          assert s[..k + 2] == s;
        }
      }
    }
  }

  /** Digits alone, or digits, a point and one or two digits, are accepted. */
  lemma AmountAccepts(w: string, f: string)
    requires |w| >= 1 && AllDigits(w) && |f| <= 2 && AllDigits(f)
    ensures ValidateAmount(w)
    ensures |f| >= 1 ==> ValidateAmount(w + "." + f)
  {
    ScanDigits(w);
    if |f| >= 1 {
      var s := w + "." + f;
      assert s[..|w|] == w && s[|w| + 1..] == f;
      assert AmountShape(s);
      AmountCharacterised(s);
    }
  }

  /** The empty string, a sign, a trailing point and three or more decimals are all rejected. */
  lemma AmountRejects(s: string)
    requires || s == []
             || s[0] == '-'
             || s[|s| - 1] == '.'
             || (exists k :: 0 <= k < |s| && s[k] == '.' && |s| - k - 1 >= 3)
    ensures !ValidateAmount(s)
  {
    ScanMeaning(s);
  }

  /** The number the digits of `s` spell when anything else is skipped: "12.5" spells 125. */
  function DigitsValue(s: string): nat {
    if s == [] then 0
    else if IsDigit(s[|s| - 1]) then DigitsValue(s[..|s| - 1]) * 10 + DigitValue(s[|s| - 1])
    else DigitsValue(s[..|s| - 1])
  }

  /**
   * The exact value, in hundredths, of an amount that `validateAmount` accepts: what
   * `toDouble()` reads from it, without binary rounding. The digits read are worth
   * 100, 10 or 1 hundredths each according to how many decimals follow the point.
   */
  function AmountCents(s: string): nat
    requires ValidateAmount(s)
  {
    if AmountScan(s) == Whole then DigitsValue(s) * 100
    else if AmountScan(s) == Fraction1 then DigitsValue(s) * 10
    else DigitsValue(s)
  }

  /** The amount check of the interaction loop: a valid pattern worth at least 0.01. */
  predicate AmountAccepted(s: string) {
    ValidateAmount(s) && AmountCents(s) >= 1
  }

  /** Reading one more character: one step of the matcher, one more digit in the value. */
  lemma ReadOneMore(s: string, c: char)
    ensures AmountScan(s + [c]) == AmountStep(AmountScan(s), c)
    ensures DigitsValue(s + [c]) == if IsDigit(c) then DigitsValue(s) * 10 + DigitValue(c) else DigitsValue(s)
  {
    assert (s + [c])[..|s|] == s;
  }

  /** A whole number "w" is worth w.00. */
  lemma WholeAmount(w: string)
    requires |w| >= 1 && AllDigits(w)
    ensures ValidateAmount(w) && AmountCents(w) == DigitsValue(w) * 100
  {
    ScanDigits(w);
  }

  /** One decimal after the point: "w.d" is worth w.d0. */
  lemma OneDecimal(w: string, d: char)
    requires |w| >= 1 && AllDigits(w) && IsDigit(d)
    ensures AmountScan(w + ['.', d]) == Fraction1
    ensures DigitsValue(w + ['.', d]) == DigitsValue(w) * 10 + DigitValue(d)
  {
    ScanDigits(w);
    ReadOneMore(w, '.');
    ReadOneMore(w + ['.'], d);
    assert w + ['.'] + [d] == w + ['.', d];
  }

  /** Two decimals after the point: "w.dd" is worth w.dd. */
  lemma TwoDecimals(w: string, d0: char, d1: char)
    requires |w| >= 1 && AllDigits(w) && IsDigit(d0) && IsDigit(d1)
    ensures AmountScan(w + ['.', d0, d1]) == Fraction2
    ensures DigitsValue(w + ['.', d0, d1]) == (DigitsValue(w) * 10 + DigitValue(d0)) * 10 + DigitValue(d1)
  {
    OneDecimal(w, d0);
    ReadOneMore(w + ['.', d0], d1);
    assert w + ['.', d0] + [d1] == w + ['.', d0, d1];
  }

  /** "w.d" is worth w.d0: it is valid and its value is w * 100 + d * 10 hundredths. */
  lemma OneDecimalAmount(w: string, d: char)
    requires |w| >= 1 && AllDigits(w) && IsDigit(d)
    ensures ValidateAmount(w + ['.', d]) && AmountCents(w + ['.', d]) == DigitsValue(w) * 100 + DigitValue(d) * 10
  {
    OneDecimal(w, d);
  }

  /** "w.dd" is worth w.dd: it is valid and its value is w * 100 + d0 * 10 + d1 hundredths. */
  lemma TwoDecimalsAmount(w: string, d0: char, d1: char)
    requires |w| >= 1 && AllDigits(w) && IsDigit(d0) && IsDigit(d1)
    ensures ValidateAmount(w + ['.', d0, d1])
    ensures AmountCents(w + ['.', d0, d1]) == DigitsValue(w) * 100 + DigitValue(d0) * 10 + DigitValue(d1)
  {
    TwoDecimals(w, d0, d1);
  }

  lemma {:induction false} DigitsValueZero(s: string)
    ensures DigitsValue(s) == 0 <==> forall i :: 0 <= i < |s| && IsDigit(s[i]) ==> s[i] == '0'
  {
    if s != [] {
      var p := s[..|s| - 1];
      DigitsValueZero(p);
      if forall i :: 0 <= i < |p| && IsDigit(p[i]) ==> p[i] == '0' {
        if !IsDigit(s[|s| - 1]) || s[|s| - 1] == '0' {
          forall i | 0 <= i < |s| && IsDigit(s[i]) ensures s[i] == '0' {
            if i < |p| { assert s[i] == p[i]; }
          }
        }
      } else {
        var i :| 0 <= i < |p| && IsDigit(p[i]) && p[i] != '0';
        assert s[i] == p[i];
      }
    }
  }

  /**
   * A pattern-valid amount is worth less than 0.01 exactly when every digit in it is
   * zero ("0", "00.0", "0.00"), which is when the interaction loop re-prompts.
   */
  lemma AmountZeroIffAllZeros(s: string)
    requires ValidateAmount(s)
    ensures AmountCents(s) == 0 <==> forall i :: 0 <= i < |s| && IsDigit(s[i]) ==> s[i] == '0'
  {
    DigitsValueZero(s);
  }

  /** The decimal digits of `n`, most significant first, with no leading zero. */
  function Digits(n: nat): (w: string)
    ensures |w| >= 1 && AllDigits(w)
  {
    if n < 10 then [DigitChar(n)] else Digits(n / 10) + [DigitChar(n % 10)]
  }

  lemma {:induction false} ValueOfDigits(n: nat)
    ensures DigitsValue(Digits(n)) == n
  {
    if n < 10 {
      ReadOneMore([], DigitChar(n));
      assert [] + [DigitChar(n)] == Digits(n);
    } else {
      ValueOfDigits(n / 10);
      ReadOneMore(Digits(n / 10), DigitChar(n % 10));
    }
  }

  /** `String.format("%.2f", amount)` for an amount of `cents` hundredths. */
  function FormatCents(cents: nat): (s: string)
    ensures |s| >= 4 && s[|s| - 3] == '.'
  {
    Digits(cents / 100) + "." + [DigitChar(cents / 10 % 10), DigitChar(cents % 10)]
  }

  /**
   * Formatting an amount with two decimals and reading it back gives the same amount,
   * and the formatted text passes `validateAmount`: the round trip the ledger makes on
   * every stored amount.
   */
  lemma FormatParsesBack(cents: nat)
    ensures ValidateAmount(FormatCents(cents))
    ensures AmountCents(FormatCents(cents)) == cents
  {
    var w := Digits(cents / 100);
    var d0, d1 := DigitChar(cents / 10 % 10), DigitChar(cents % 10);
    assert FormatCents(cents) == w + ['.', d0, d1];
    TwoDecimalsAmount(w, d0, d1);
    ValueOfDigits(cents / 100);
    SplitCents(cents);
  }

  lemma SplitCents(c: nat)
    ensures c == (c / 100) * 100 + (c / 10 % 10) * 10 + c % 10
  {
    var q := c / 10;
    assert c == q * 10 + c % 10;
    assert q == (q / 10) * 10 + q % 10;
    assert q / 10 == c / 100;
  }

  // ---------------------------------------------------------------------------
  // Currencies
  // ---------------------------------------------------------------------------

  /** An ISO 4217 style code: upper-case Latin letters only, so no regex metacharacter. */
  predicate IsCodeText(c: string) {
    forall i :: 0 <= i < |c| ==> 'A' <= c[i] <= 'Z'
  }

  /** The pattern `c1|c2|…|cn`: the known codes joined with '|' (`joinToString("|")`). */
  function JoinAlternation(codes: seq<string>): string {
    if codes == [] then ""
    else if |codes| == 1 then codes[0]
    else codes[0] + "|" + JoinAlternation(codes[1..])
  }

  /** The alternatives of a pattern: the pieces between its '|' characters. */
  function Alternatives(p: string): (r: seq<string>)
    ensures |r| >= 1
  {
    if p == [] then [""]
    else
      var rest := Alternatives(p[1..]);
      if p[0] == '|' then [""] + rest else [[p[0]] + rest[0]] + rest[1..]
  }

  /**
   * Whole-string match of `s` against a pattern that is an alternation of literals,
   * as `String.matches` does: `s` must equal one alternative entirely.
   */
  predicate FullMatch(s: string, p: string) {
    s in Alternatives(p)
  }

  /** `validateCurrency`: a whole match against the alternation of the known codes. */
  predicate ValidateCurrency(s: string, codes: seq<string>) {
    FullMatch(s, JoinAlternation(codes))
  }

  lemma {:induction false} AlternativesOfLiteral(a: string, b: string)
    requires '|' !in a
    ensures Alternatives(a) == [a]
    ensures Alternatives(a + "|" + b) == [a] + Alternatives(b)
  {
    if a != [] {
      AlternativesOfLiteral(a[1..], b);
      assert (a + "|" + b)[1..] == a[1..] + "|" + b;
      assert [a[0]] + a[1..] == a;
    } else {
      assert a + "|" + b == "|" + b;
      assert ("|" + b)[1..] == b;
    }
  }

  /** Splitting the joined pattern at '|' gives back the codes, in order. */
  lemma {:induction false} AlternativesOfJoin(codes: seq<string>)
    requires |codes| >= 1
    requires forall c :: c in codes ==> '|' !in c
    ensures Alternatives(JoinAlternation(codes)) == codes
  {
    if |codes| == 1 {
      AlternativesOfLiteral(codes[0], "");
    } else {
      AlternativesOfJoin(codes[1..]);
      AlternativesOfLiteral(codes[0], JoinAlternation(codes[1..]));
      assert codes == [codes[0]] + codes[1..];
    }
  }

  /**
   * For a non-empty list of letter codes, `validateCurrency` is membership in the set of
   * known codes: the order of the list does not matter and a code must match in full,
   * so neither a prefix nor an extension of a code is accepted.
   */
  lemma CurrencyIsMembership(s: string, codes: seq<string>)
    requires |codes| >= 1
    requires forall c :: c in codes ==> IsCodeText(c)
    ensures ValidateCurrency(s, codes) <==> s in set c | c in codes
  {
    AlternativesOfJoin(codes);
  }

  /** With no known codes the pattern is empty and only the empty string matches it. */
  lemma CurrencyWithNoCodes(s: string)
    ensures ValidateCurrency(s, []) <==> s == ""
  {
  }
}
