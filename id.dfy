/**
 * The composite identifier `Id { exchange_id, account_number }` and its
 * text form: ASCII letters followed by a decimal account number, parsed
 * with the whole-text pattern `(^[A-Za-z]+)(\d+$)`.
 */
module Ids {
  import opened Wrappers

  /** Rust's `u8`. */
  newtype u8 = x: int | 0 <= x < 0x100

  /** `Id`; equality (and hashing) is structural on both fields. */
  datatype Id = Id(exchange_id: string, account_number: u8)

  /** `IdParseError`, one variant per message `from_str` can produce. */
  datatype IdParseError =
    | InvalidFormat   // "Invalid format"
    | NumberOverflow  // "Can't parse exchange account number: number too large ..."

  /** `Id::new`: stores its two arguments. */
  function New(exchange_id: string, account_number: u8): Id
  {
    Id(exchange_id, account_number)
  }

  /** `Id::default`: the fixed fallback identifier. */
  function Default(): Id
  {
    New("test", 0)
  }

  /** `Id::new` keeps exactly its arguments, so two identifiers are equal exactly when both fields are. */
  lemma NewIsStructural(e1: string, n1: u8, e2: string, n2: u8)
    ensures New(e1, n1).exchange_id == e1 && New(e1, n1).account_number == n1
    ensures New(e1, n1) == New(e2, n2) <==> e1 == e2 && n1 == n2
  {
  }

  // ---------------------------------------------------------------------
  // Character classes of the pattern

  /** `[A-Za-z]` */
  predicate IsAsciiLetter(c: char)
  {
    ('A' <= c <= 'Z') || ('a' <= c <= 'z')
  }

  /** `\d`, restricted to ASCII digits */
  predicate IsAsciiDigit(c: char)
  {
    '0' <= c <= '9'
  }

  predicate AllLetters(s: string)
  {
    forall i :: 0 <= i < |s| ==> IsAsciiLetter(s[i])
  }

  predicate AllDigits(s: string)
  {
    forall i :: 0 <= i < |s| ==> IsAsciiDigit(s[i])
  }

  /** The text splits at `k` into a non-empty letter run and a non-empty digit run. */
  predicate MatchesAt(text: string, k: int)
  {
    0 < k < |text| && AllLetters(text[..k]) && AllDigits(text[k..])
  }

  /** The whole text matches `^[A-Za-z]+\d+$`. */
  ghost predicate MatchesIdPattern(text: string)
  {
    exists k :: MatchesAt(text, k)
  }

  /** Length of the longest prefix of ASCII letters (where `[A-Za-z]+` stops). */
  function LetterPrefixLen(s: string): (n: nat)
    ensures n <= |s|
    ensures AllLetters(s[..n])
    ensures n < |s| ==> !IsAsciiLetter(s[n])
  {
    if |s| == 0 || !IsAsciiLetter(s[0]) then 0
    else
      var n := 1 + LetterPrefixLen(s[1..]);
      assert s[..n] == [s[0]] + s[1..][..n - 1];
      n
  }

  /** Letters and digits are disjoint, so a match can only split where the letters end. */
  lemma SplitIsUnique(text: string, k: int)
    requires MatchesAt(text, k)
    ensures k == LetterPrefixLen(text)
  {
    var n := LetterPrefixLen(text);
    assert forall j :: 0 <= j < k ==> IsAsciiLetter(text[j]) by {
      forall j | 0 <= j < k ensures IsAsciiLetter(text[j]) { assert text[..k][j] == text[j]; }
    }
    assert IsAsciiDigit(text[k]) by { assert text[k..][0] == text[k]; }
    assert forall j :: 0 <= j < n ==> IsAsciiLetter(text[j]) by {
      forall j | 0 <= j < n ensures IsAsciiLetter(text[j]) { assert text[..n][j] == text[j]; }
    }
    assert k <= n;
  }

  /**
   * `regex.captures(text)`: the two capture groups (letters, digits) when the
   * whole text matches the pattern, `None` otherwise. The split is unique.
   */
  function Captures(text: string): (c: Option<(string, string)>)
    ensures c.Some? <==> MatchesIdPattern(text)
    ensures c.Some? ==> text == c.value.0 + c.value.1 && MatchesAt(text, |c.value.0|)
    ensures c.Some? ==> forall k :: MatchesAt(text, k) ==> k == |c.value.0|
  {
    var n := LetterPrefixLen(text);
    if MatchesAt(text, n) then
      assert text == text[..n] + text[n..];
      assert forall k :: MatchesAt(text, k) ==> k == n by {
        forall k | MatchesAt(text, k) ensures k == n { SplitIsUnique(text, k); }
      }
      Some((text[..n], text[n..]))
    else
      assert !MatchesIdPattern(text) by {
        forall k | MatchesAt(text, k) ensures false { SplitIsUnique(text, k); }
      }
      None
  }

  // ---------------------------------------------------------------------
  // Decimal numbers

  /** Numeric value of an ASCII digit. */
  function DigitValue(c: char): nat
    requires IsAsciiDigit(c)
  {
    c as int - '0' as int
  }

  /** Value of a run of decimal digits, most significant first (leading zeros allowed). */
  function DigitsValue(s: string): nat
    requires AllDigits(s)
  {
    if |s| == 0 then 0
    else DigitsValue(s[..|s| - 1]) * 10 + DigitValue(s[|s| - 1])
  }

  /** The ASCII digit for `d`. */
  function DigitChar(d: int): char
    requires 0 <= d < 10
  {
    ('0' as int + d) as char
  }

  /** `n.to_string()`: shortest decimal form of `n`. */
  function Decimal(n: nat): string
  {
    if n < 10 then [DigitChar(n)]
    else Decimal(n / 10) + [DigitChar(n % 10)]
  }

  lemma {:induction false} DecimalIsDigits(n: nat)
    ensures |Decimal(n)| > 0 && AllDigits(Decimal(n))
    ensures DigitsValue(Decimal(n)) == n
  {
    if n >= 10 {
      DecimalIsDigits(n / 10);
      var s := Decimal(n);
      assert s[..|s| - 1] == Decimal(n / 10);
    }
  }

  lemma {:induction false} LeadingZeroIgnored(s: string)
    requires AllDigits(s)
    ensures DigitsValue(['0'] + s) == DigitsValue(s)
  {
    if |s| > 0 {
      var t := ['0'] + s;
      assert t[..|t| - 1] == ['0'] + s[..|s| - 1];
      LeadingZeroIgnored(s[..|s| - 1]);
    }
  }

  // ---------------------------------------------------------------------
  // Parsing

  /**
   * `Id::from_str`: match the pattern, take the letter run as the exchange id
   * and parse the digit run as a `u8`.
   */
  function FromStr(text: string): (r: Result<Id, IdParseError>)
    ensures r == Err(InvalidFormat) <==> !MatchesIdPattern(text)
    ensures r.Ok? ==> AllLetters(r.value.exchange_id) && |r.value.exchange_id| > 0
  {
    match Captures(text)
    case None => Err(InvalidFormat)
    case Some((letters, digits)) =>
      var number := DigitsValue(digits);
      if number <= 255 then Ok(New(letters, number as u8))
      else Err(NumberOverflow)
  }

  /**
   * Every text of the shape letters ++ digits parses: to the letters and the
   * digits' value when it fits a `u8`, to `NumberOverflow` otherwise.
   */
  lemma ParseLettersDigits(letters: string, digits: string)
    requires |letters| > 0 && AllLetters(letters)
    requires |digits| > 0 && AllDigits(digits)
    ensures FromStr(letters + digits) ==
      if DigitsValue(digits) <= 255 then Ok(New(letters, DigitsValue(digits) as u8))
      else Err(NumberOverflow)
  {
    var text := letters + digits;
    assert text[..|letters|] == letters && text[|letters|..] == digits;
    assert MatchesAt(text, |letters|);
    var c := Captures(text);
    assert |c.value.0| == |letters|;
  }

  /** Conversely, every successful parse comes from such a split. */
  lemma ParsedTextSplits(text: string)
    requires FromStr(text).Ok?
    ensures var id := FromStr(text).value;
      var digits := text[|id.exchange_id|..];
      text == id.exchange_id + digits &&
      |digits| > 0 && AllDigits(digits) && DigitsValue(digits) == id.account_number as int
  {
  }

  /** Round trip: letters followed by the decimal form of `n` parse back to `Id::new(letters, n)`. */
  lemma RoundTrip(letters: string, n: u8)
    requires |letters| > 0 && AllLetters(letters)
    ensures FromStr(letters + Decimal(n as nat)) == Ok(New(letters, n))
  {
    DecimalIsDigits(n as nat);
    ParseLettersDigits(letters, Decimal(n as nat));
  }

  /** Leading zeros in the digit run are accepted and do not change the number. */
  lemma LeadingZeroAccepted(letters: string, digits: string)
    requires |letters| > 0 && AllLetters(letters)
    requires |digits| > 0 && AllDigits(digits)
    ensures FromStr(letters + (['0'] + digits)) == FromStr(letters + digits)
  {
    LeadingZeroIgnored(digits);
    ParseLettersDigits(letters, ['0'] + digits);
    ParseLettersDigits(letters, digits);
  }

  /** Texts that cannot match: empty, a leading digit, no trailing digit, a foreign character. */
  lemma MalformedRejected(text: string)
    requires || |text| == 0
             || IsAsciiDigit(text[0])
             || IsAsciiLetter(text[|text| - 1])
             || (exists i :: 0 <= i < |text| && !IsAsciiLetter(text[i]) && !IsAsciiDigit(text[i]))
    ensures FromStr(text) == Err(InvalidFormat)
  {
    if k :| MatchesAt(text, k) {
      assert text[..k][0] == text[0];
      assert text[k..][|text| - 1 - k] == text[|text| - 1];
      if i :| 0 <= i < |text| && !IsAsciiLetter(text[i]) && !IsAsciiDigit(text[i]) {
        if i < k { assert text[..k][i] == text[i]; } else { assert text[k..][i - k] == text[i]; }
      }
    }
  }

  /** The default identifier is what "test0" parses to. */
  lemma DefaultParses()
    ensures FromStr("test0") == Ok(Default())
  {
    assert "test0" == "test" + Decimal(0);
    RoundTrip("test", 0);
  }

  /** "binance1" parses to ("binance", 1). */
  lemma ExampleSimple()
    ensures FromStr("binance1") == Ok(New("binance", 1))
  {
    assert "binance1" == "binance" + Decimal(1);
    RoundTrip("binance", 1);
  }

  /** "a007" parses to ("a", 7): the leading zeros are dropped. */
  lemma ExampleLeadingZeros()
    ensures FromStr("a007") == Ok(New("a", 7))
  {
    assert "a007" == "a" + (['0'] + "07");
    assert "a07" == "a" + (['0'] + "7");
    LeadingZeroAccepted("a", "07");
    LeadingZeroAccepted("a", "7");
    assert "a7" == "a" + Decimal(7);
    RoundTrip("a", 7);
  }

  /** "binance999" has the right shape but 999 does not fit a `u8`. */
  lemma ExampleOverflow()
    ensures FromStr("binance999") == Err(NumberOverflow)
  {
    assert "binance999" == "binance" + "999";
    assert DigitsValue("999") == 999 by {
      assert "999"[..2] == "99";
      assert "99"[..1] == "9";
    }
    ParseLettersDigits("binance", "999");
  }

  /** "binance" has no trailing digits. */
  lemma ExampleNoDigits()
    ensures FromStr("binance") == Err(InvalidFormat)
  {
    MalformedRejected("binance");
  }
}
