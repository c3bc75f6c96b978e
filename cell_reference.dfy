/** Spreadsheet cell references such as `B3`: column letters in bijective
    base 26 (A = 1 ... Z = 26, AA = 27, no zero digit) followed by a 1-based
    row number. */
module CellReference {
  import opened Text
  import opened Failures

  /** The two strings `_splitCellReference` returns: the column letters,
      upper-cased, and the row text. */
  datatype Parts = Parts(letters: string, rowText: string)

  /** Length of the longest prefix of `s` made of ASCII letters. */
  function LetterRun(s: string): (n: nat)
    ensures n <= |s|
    ensures forall i :: 0 <= i < n ==> IsAsciiLetter(s[i])
    ensures n < |s| ==> !IsAsciiLetter(s[n])
  {
    if s == [] || !IsAsciiLetter(s[0]) then 0 else 1 + LetterRun(s[1..])
  }

  /** Length of the longest prefix of `s` holding no ASCII letter. */
  function NonLetterRun(s: string): (n: nat)
    ensures n <= |s|
    ensures forall i :: 0 <= i < n ==> !IsAsciiLetter(s[i])
    ensures n < |s| ==> IsAsciiLetter(s[n])
  {
    if s == [] || IsAsciiLetter(s[0]) then 0 else 1 + NonLetterRun(s[1..])
  }

  function UpperAll(s: string): string {
    seq(|s|, i requires 0 <= i < |s| => ToUpper(s[i]))
  }

  /** `_splitCellReference`. The reference must begin with ASCII letters
      followed at once by a digit 1-9 (`/(([A-Z]|[a-z])+[1-9]\d*)/` matching at
      index 0). The letters come back upper-cased; the row text is what
      `split(/(([A-Z]|[a-z])+)/)` leaves between the first and the second run
      of letters, so anything after the digits up to the next letter is kept
      and never checked. */
  function SplitRef(cell: string): Result<Parts> {
    var n := LetterRun(cell);
    if 0 < n < |cell| && '1' <= cell[n] <= '9' then
      Ok(Parts(UpperAll(cell[..n]), cell[n..n + NonLetterRun(cell[n..])]))
    else Err(InvalidReference)
  }

  predicate IsColumnLetters(s: string) {
    s != [] && forall i :: 0 <= i < |s| ==> 'A' <= s[i] <= 'Z'
  }

  /** The row texts SplitRef produces: a digit 1-9 first, no ASCII letter. */
  predicate IsRowText(t: string) {
    t != [] && '1' <= t[0] <= '9' && forall i :: 0 <= i < |t| ==> !IsAsciiLetter(t[i])
  }

  /** Value of the column letters: each letter is its char code minus 64
      (A = 1 ... Z = 26), read in base 26 from the left. */
  function ColumnNumber(s: string): int {
    if s == [] then 0
    else ColumnNumber(s[..|s| - 1]) * 26 + (s[|s| - 1] as int - 64)
  }

  /** The letters of a column number: the reference definition of bijective
      base 26. */
  function ColumnLetters(n: nat): string {
    if n == 0 then []
    else ColumnLetters((n - 1) / 26) + [((n - 1) % 26 + 65) as char]
  }

  // ------------------------------------------------------------ row text

  function DigitRun(s: string): (n: nat)
    ensures n <= |s|
    ensures forall i :: 0 <= i < n ==> IsAsciiDigit(s[i])
    ensures n < |s| ==> !IsAsciiDigit(s[n])
  {
    if s == [] || !IsAsciiDigit(s[0]) then 0 else 1 + DigitRun(s[1..])
  }

  function ZeroRun(s: string): (n: nat)
    ensures n <= |s|
  {
    if s == [] || s[0] != '0' then 0 else 1 + ZeroRun(s[1..])
  }

  /** Decimal value of a string of digits. */
  function DigitsValue(s: string): nat {
    if s == [] then 0
    else DigitsValue(s[..|s| - 1]) * 10 + if IsAsciiDigit(s[|s| - 1]) then s[|s| - 1] as int - '0' as int else 0
  }

  /** `Number(t)` for a row text, when it is a whole number: the digits, then
      optionally a point followed by zeros only, then only whitespace. `None`
      stands for every other outcome (NaN or a fraction), with which the
      source looks up a row that does not exist. */
  function RowNumber(t: string): Option<nat> {
    var d := DigitRun(t);
    var rest := t[d..];
    if d > 0 && (AllWhitespace(rest) || (rest[0] == '.' && AllWhitespace(rest[1 + ZeroRun(rest[1..])..])))
    then Some(DigitsValue(t[..d]))
    else None
  }

  /** The decimal text of a positive number, most significant digit first. */
  function DecimalText(n: nat): string
    requires n >= 1
  {
    if n < 10 then [(n + '0' as int) as char]
    else DecimalText(n / 10) + [((n % 10) + '0' as int) as char]
  }

  // ------------------------------------------------------------ methods

  /** `_splitCellReference`, as a scan over the characters. */
  method SplitCellReference(cell: string) returns (r: Result<Parts>)
    ensures r == SplitRef(cell)
  {
    var n := 0;
    while n < |cell| && IsAsciiLetter(cell[n])
      invariant 0 <= n <= |cell|
      invariant forall i :: 0 <= i < n ==> IsAsciiLetter(cell[i])
    {
      n := n + 1;
    }
    LetterRunIs(cell, n);
    if !(0 < n < |cell| && '1' <= cell[n] <= '9') {
      return Err(InvalidReference);
    }
    var m := n;
    while m < |cell| && !IsAsciiLetter(cell[m])
      invariant n <= m <= |cell|
      invariant forall i :: n <= i < m ==> !IsAsciiLetter(cell[i])
    {
      m := m + 1;
    }
    NonLetterRunIs(cell[n..], m - n);
    var letters := UpperCase(cell[..n]);
    r := Ok(Parts(letters, cell[n..m]));
  }

  /** `toUpperCase` on the letters of a reference. */
  method UpperCase(s: string) returns (u: string)
    ensures u == UpperAll(s)
  {
    u := [];
    var i := 0;
    while i < |s|
      invariant 0 <= i <= |s| && |u| == i
      invariant forall j :: 0 <= j < i ==> u[j] == ToUpper(s[j])
    {
      u := u + [ToUpper(s[i])];
      i := i + 1;
    }
  }

  /** `_referenceToIndices`: the row index is the row number minus one and
      the column index the base-26 value of the letters minus one, built by
      the source's accumulator loop. */
  method ReferenceToIndices(parts: Parts) returns (rowIndex: Option<nat>, colIndex: int)
    requires IsColumnLetters(parts.letters) && IsRowText(parts.rowText)
    ensures colIndex == ColumnNumber(parts.letters) - 1 && colIndex >= 0
    ensures rowIndex == match RowNumber(parts.rowText)
                        case Some(k) => Some(k - 1)
                        case None => None
  {
    var letters := parts.letters;
    RowNumberPositive(parts.rowText);
    rowIndex := match RowNumber(parts.rowText)
                case Some(k) => Some(k - 1)
                case None => None;
    colIndex := 0;
    var i := 0;
    while i < |letters|
      invariant 0 <= i <= |letters|
      invariant colIndex == ColumnNumber(letters[..i])
    {
      assert letters[..i + 1][..i] == letters[..i];
      colIndex := colIndex * 26;
      colIndex := colIndex + (letters[i] as int - 64);
      i := i + 1;
    }
    assert letters[..|letters|] == letters;
    ColumnNumberPositive(letters);
    colIndex := colIndex - 1;
  }

  // ------------------------------------------------------------ lemmas

  lemma LetterRunIs(s: string, n: nat)
    requires n <= |s| && (forall i :: 0 <= i < n ==> IsAsciiLetter(s[i]))
    requires n < |s| ==> !IsAsciiLetter(s[n])
    ensures LetterRun(s) == n
  {
  }

  lemma NonLetterRunIs(s: string, n: nat)
    requires n <= |s| && (forall i :: 0 <= i < n ==> !IsAsciiLetter(s[i]))
    requires n < |s| ==> IsAsciiLetter(s[n])
    ensures NonLetterRun(s) == n
  {
  }

  /** Upper-case column letters are worth at least 1. */
  lemma {:induction false} ColumnNumberPositive(s: string)
    requires IsColumnLetters(s)
    ensures ColumnNumber(s) >= 1
    decreases |s|
  {
    var init := s[..|s| - 1];
    if init != [] {
      ColumnNumberPositive(init);
    }
  }

  /** A row text that is a whole number is at least 1. */
  lemma RowNumberPositive(t: string)
    requires IsRowText(t)
    ensures RowNumber(t).Some? ==> RowNumber(t).value >= 1
  {
    var d := DigitRun(t);
    DigitsValueLeading(t[..d]);
  }

  lemma {:induction false} DigitsValueLeading(s: string)
    requires s != [] && (forall i :: 0 <= i < |s| ==> IsAsciiDigit(s[i]))
    ensures DigitsValue(s) >= s[0] as int - '0' as int
    decreases |s|
  {
    var init := s[..|s| - 1];
    if init != [] {
      DigitsValueLeading(init);
    }
  }

  /** A reference is accepted exactly when it starts with ASCII letters
      followed at once by a digit 1-9; whatever follows is not checked. */
  lemma {:induction false} SplitRefAcceptsIff(cell: string)
    ensures SplitRef(cell).Ok? <==>
      exists n :: 0 < n < |cell| && (forall i :: 0 <= i < n ==> IsAsciiLetter(cell[i])) && '1' <= cell[n] <= '9'
  {
    var n := LetterRun(cell);
    if exists m :: 0 < m < |cell| && (forall i :: 0 <= i < m ==> IsAsciiLetter(cell[i])) && '1' <= cell[m] <= '9' {
      var m :| 0 < m < |cell| && (forall i :: 0 <= i < m ==> IsAsciiLetter(cell[i])) && '1' <= cell[m] <= '9';
      LetterRunIs(cell, m);
    }
  }

  /** An accepted reference yields upper-case column letters and a row text
      that starts with a digit 1-9 and holds no letter: the inputs
      `_referenceToIndices` expects. */
  lemma {:induction false} SplitRefParts(cell: string)
    requires SplitRef(cell).Ok?
    ensures IsColumnLetters(SplitRef(cell).value.letters)
    ensures IsRowText(SplitRef(cell).value.rowText)
  {
    var n := LetterRun(cell);
    var t := cell[n..n + NonLetterRun(cell[n..])];
    assert t[0] == cell[n];
    forall i | 0 <= i < |t| ensures !IsAsciiLetter(t[i]) {
      assert t[i] == cell[n..][i];
    }
  }

  /** Column letters are a bijective base-26 numbering: ColumnLetters is a
      right inverse of ColumnNumber ... */
  lemma {:induction false} ColumnNumberOfLetters(n: nat)
    ensures ColumnNumber(ColumnLetters(n)) == n
    ensures n >= 1 ==> IsColumnLetters(ColumnLetters(n))
    decreases n
  {
    if n > 0 {
      var q, r := (n - 1) / 26, (n - 1) % 26;
      var s := ColumnLetters(n);
      ColumnNumberOfLetters(q);
      LastLetter(n);
      assert s[..|s| - 1] == ColumnLetters(q);
      DigitStep(q, r + 1);
      LettersUpper(n);
    }
  }

  /** The last letter of ColumnLetters(n) is the base-26 digit of n - 1. */
  lemma {:induction false} LastLetter(n: nat)
    requires n > 0
    ensures var s := ColumnLetters(n);
      |s| >= 1 && s[..|s| - 1] == ColumnLetters((n - 1) / 26) && s[|s| - 1] as int - 64 == (n - 1) % 26 + 1
  {
    var s := ColumnLetters(n);
    assert s[..|s| - 1] == ColumnLetters((n - 1) / 26);
  }

  lemma {:induction false} LettersUpper(n: nat)
    ensures forall i :: 0 <= i < |ColumnLetters(n)| ==> 'A' <= ColumnLetters(n)[i] <= 'Z'
    ensures n >= 1 ==> ColumnLetters(n) != []
    decreases n
  {
    if n > 0 {
      LettersUpper((n - 1) / 26);
    }
  }

  /** ... and a left inverse on upper-case letters, so different letter
      strings never address the same column. */
  lemma {:induction false} LettersOfColumnNumber(s: string)
    requires forall i :: 0 <= i < |s| ==> 'A' <= s[i] <= 'Z'
    ensures ColumnNumber(s) >= 0 && ColumnLetters(ColumnNumber(s)) == s
    decreases |s|
  {
    if s != [] {
      var init := s[..|s| - 1];
      var d := s[|s| - 1] as int - 64;
      LettersOfColumnNumber(init);
      ColumnNumberNonNegative(init);
      var v, n := ColumnNumber(init), ColumnNumber(s);
      assert n == v * 26 + d;
      DigitStep(v, d);
      assert ColumnLetters(n) == ColumnLetters(v) + [((n - 1) % 26 + 65) as char];
      assert s == init + [s[|s| - 1]];
    }
  }

  /** One bijective base-26 digit: v * 26 + d with d in 1..26 gives back v
      and d. */
  lemma {:induction false} DigitStep(v: int, d: int)
    requires v >= 0 && 1 <= d <= 26
    ensures (v * 26 + d - 1) / 26 == v && (v * 26 + d - 1) % 26 == d - 1
  {
    var m := v * 26 + d - 1;
    assert m == 26 * v + (d - 1);
  }

  lemma {:induction false} ColumnNumberNonNegative(s: string)
    requires forall i :: 0 <= i < |s| ==> 'A' <= s[i] <= 'Z'
    ensures ColumnNumber(s) >= 0
    decreases |s|
  {
    if s != [] {
      ColumnNumberNonNegative(s[..|s| - 1]);
    }
  }

  /** The decimal text of a number is a row text whose number is that number. */
  lemma {:induction false} RowNumberOfDecimal(n: nat)
    requires n >= 1
    ensures IsRowText(DecimalText(n))
    ensures forall i :: 0 <= i < |DecimalText(n)| ==> IsAsciiDigit(DecimalText(n)[i])
    ensures DigitsValue(DecimalText(n)) == n
    ensures RowNumber(DecimalText(n)) == Some(n)
    decreases n
  {
    var t := DecimalText(n);
    if n >= 10 {
      RowNumberOfDecimal(n / 10);
      assert t[..|t| - 1] == DecimalText(n / 10);
      assert t[0] == DecimalText(n / 10)[0];
    }
    DigitRunIs(t, |t|);
    assert t[..|t|] == t;
  }

  lemma DigitRunIs(s: string, n: nat)
    requires n <= |s| && (forall i :: 0 <= i < n ==> IsAsciiDigit(s[i]))
    requires n < |s| ==> !IsAsciiDigit(s[n])
    ensures DigitRun(s) == n
  {
  }

  /** The reference built from column number j + 1 and row number k + 1 is
      accepted and split back into those letters and that number, so it
      addresses row index k and column index j. */
  lemma {:induction false} ReferenceFor(j: nat, k: nat)
    ensures SplitRef(ColumnLetters(j + 1) + DecimalText(k + 1)) ==
      Ok(Parts(ColumnLetters(j + 1), DecimalText(k + 1)))
  {
    var letters, digits := ColumnLetters(j + 1), DecimalText(k + 1);
    ColumnNumberOfLetters(j + 1);
    RowNumberOfDecimal(k + 1);
    SplitWellFormed(letters, digits);
  }

  lemma {:induction false} SplitWellFormed(letters: string, digits: string)
    requires IsColumnLetters(letters) && IsRowText(digits)
    ensures SplitRef(letters + digits) == Ok(Parts(letters, digits))
  {
    var cell := letters + digits;
    forall i | 0 <= i < |letters| ensures IsAsciiLetter(cell[i]) {
      assert cell[i] == letters[i];
    }
    assert cell[|letters|] == digits[0];
    LetterRunIs(cell, |letters|);
    assert cell[|letters|..] == digits;
    NonLetterRunIs(digits, |digits|);
    assert NonLetterRun(cell[|letters|..]) == |digits|;
    assert |letters| + |digits| == |cell|;
    assert cell[|letters|..|letters| + |digits|] == cell[|letters|..];
    assert cell[..|letters|] == letters;
    UpperAllOfUpper(letters);
  }

  /** Upper-casing leaves upper-case letters alone. */
  lemma {:induction false} UpperAllOfUpper(s: string)
    requires forall i :: 0 <= i < |s| ==> 'A' <= s[i] <= 'Z'
    ensures UpperAll(s) == s
  {
    forall i | 0 <= i < |s| ensures UpperAll(s)[i] == s[i] {
      assert ToUpper(s[i]) == s[i];
    }
  }

  /** The addresses the source documents: A1, Z1, AA1 and B3. */
  lemma {:induction false} AddressExamples()
    ensures ColumnNumber("A") - 1 == 0 && ColumnNumber("Z") - 1 == 25
    ensures ColumnNumber("AA") - 1 == 26 && ColumnNumber("B") - 1 == 1
    ensures RowNumber("1") == Some(1) && RowNumber("3") == Some(3)
  {
    assert "AA"[..1] == "A";
    DigitRunIs("1", 1);
    DigitRunIs("3", 1);
  }

  /** A lower-case reference is accepted and upper-cased; `1A` (digits first)
      and `A0` (row number starting with zero) are rejected. */
  lemma {:induction false} SplitExamples()
    ensures SplitRef("b3") == Ok(Parts("B", "3"))
    ensures SplitRef("1A") == Err(InvalidReference) && SplitRef("A0") == Err(InvalidReference)
  {
    LetterRunIs("b3", 1);
    NonLetterRunIs("3", 1);
    assert "b3"[1..] == "3";
    assert "b3"[..1] == "b";
    assert "b3"[1..2] == "3";
    assert ToUpper('b') == 'B';
    assert UpperAll("b") == "B";
    LetterRunIs("A0", 1);
    LetterRunIs("1A", 0);
  }
}
