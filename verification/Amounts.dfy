/** Decimal amounts and stroops (7 decimals), and the two halves of a 128-bit amount. */
module Amounts {
  import opened Text

  datatype Parsed = Stroops(value: nat) | IsEmpty | NotDecimal | TooManyDecimals | NotPositive

  const SCALE := 10_000_000

  function Pow10(n: nat): (p: nat)
    ensures p > 0
  {
    if n == 0 then 1 else 10 * Pow10(n - 1)
  }

  /** The characters that trimming removes: Unicode white space, and the byte order mark. */
  predicate IsSpace(c: char) {
    var n := c as int;
    9 <= n <= 13 || n == 0x20 || n == 0x85 || n == 0xA0 || n == 0x1680 || 0x2000 <= n <= 0x200A
    || n == 0x2028 || n == 0x2029 || n == 0x202F || n == 0x205F || n == 0x3000 || n == 0xFEFF
  }

  function TrimLeft(s: string): string {
    if s != [] && IsSpace(s[0]) then TrimLeft(s[1..]) else s
  }

  function TrimRight(s: string): string {
    if s != [] && IsSpace(s[|s| - 1]) then TrimRight(s[..|s| - 1]) else s
  }

  function Trim(s: string): string { TrimRight(TrimLeft(s)) }

  function Zeros(n: nat): (s: string)
    ensures |s| == n && AllDigits(s)
  {
    seq(n, _ => '0')
  }

  function PadRight(s: string, width: nat): string {
    if |s| >= width then s else s + Zeros(width - |s|)
  }

  function PadLeft(s: string, width: nat): string {
    if |s| >= width then s else Zeros(width - |s|) + s
  }

  function DecimalToStroops(decimal: string): Parsed {
    var s := Trim(decimal);
    if s == [] then IsEmpty else
      var parts := Split(s, '.');
      if |parts| > 2 || (|parts| == 2 && parts[1] == []) then NotDecimal
      else if parts[0] == [] || !AllDigits(parts[0]) || (|parts| == 2 && !AllDigits(parts[1])) then NotDecimal
      else
        var frac := if |parts| == 2 then parts[1] else [];
        if |frac| > 7 then TooManyDecimals else
          PadDigits(frac, 7);
          var value := Number(parts[0] + PadRight(frac, 7));
          if value == 0 then NotPositive else Stroops(value)
  }

  lemma PadDigits(s: string, width: nat)
    requires AllDigits(s)
    ensures AllDigits(PadRight(s, width))
  {}

  function DropZeros(s: string): string {
    if s != [] && s[|s| - 1] == '0' then DropZeros(s[..|s| - 1]) else s
  }

  function StroopsToDecimal(stroops: int): string {
    var abs: nat := if stroops < 0 then -stroops else stroops;
    var whole := Digits(abs / SCALE);
    var frac := DropZeros(PadLeft(Digits(abs % SCALE), 7));
    var sign := if stroops < 0 then ['-'] else [];
    if frac == [] then sign + whole else sign + whole + ['.'] + frac
  }

  // ----- numbers of digit texts --------------------------------------------------------------------------

  lemma TenTimes(a: int, k: nat)
    ensures 10 * (a * Pow10(k)) == a * Pow10(k + 1)
  {
    assert Pow10(k + 1) == 10 * Pow10(k);
  }

  lemma {:induction false} NumberAppend(a: string, b: string)
    requires AllDigits(a) && AllDigits(b)
    ensures AllDigits(a + b) && Number(a + b) == Number(a) * Pow10(|b|) + Number(b)
  {
    hide Pow10, Number, AllDigits;
    if b == [] {
      assert a + b == a;
      NumberEmpty();
      Pow10Zero();
    } else {
      var front, last := b[..|b| - 1], b[|b| - 1];
      assert b == front + [last];
      assert a + b == (a + front) + [last];
      NumberLast(front, last);
      NumberAppend(a, front);
      NumberLast(a + front, last);
      TenTimes(Number(a), |front|);
    }
  }

  lemma Pow10Zero()
    ensures Pow10(0) == 1
  {}

  lemma NumberEmpty()
    ensures AllDigits("") && Number("") == 0
  {}

  /** A last digit counts once, all before it ten times. */
  lemma NumberLast(front: string, last: char)
    ensures AllDigits(front + [last]) <==> AllDigits(front) && IsDigit(last)
    ensures AllDigits(front + [last]) ==> Number(front + [last]) == 10 * Number(front) + ValueOf(last)
  {
    var s := front + [last];
    assert s[..|s| - 1] == front && s[|s| - 1] == last;
    assert forall i :: 0 <= i < |front| ==> s[i] == front[i];
  }

  lemma {:induction false} NumberOfZeros(n: nat)
    ensures Number(Zeros(n)) == 0
  {
    if n > 0 {
      NumberOfZeros(n - 1);
      assert Zeros(n)[..n - 1] == Zeros(n - 1);
    }
  }

  lemma NumberPadded(s: string, width: nat)
    requires AllDigits(s) && |s| <= width
    ensures AllDigits(PadRight(s, width)) && |PadRight(s, width)| == width
    ensures Number(PadRight(s, width)) == Number(s) * Pow10(width - |s|)
  {
    NumberAppend(s, Zeros(width - |s|));
    NumberOfZeros(width - |s|);
    assert |s| == width ==> Pow10(width - |s|) == 1;
  }

  lemma NumberLeftPadded(s: string, width: nat)
    requires AllDigits(s) && |s| <= width
    ensures AllDigits(PadLeft(s, width)) && |PadLeft(s, width)| == width && Number(PadLeft(s, width)) == Number(s)
  {
    NumberAppend(Zeros(width - |s|), s);
    NumberOfZeros(width - |s|);
  }

  lemma Pow10Seven()
    ensures Pow10(7) == SCALE
  {
    assert Pow10(3) == 1000;
    assert Pow10(5) == 100000;
  }

  /** Fewer than k digits below ten to the k. */
  lemma {:induction false} DigitsLength(n: nat, k: nat)
    requires k > 0 && n < Pow10(k)
    ensures |Digits(n)| <= k
  {
    if n >= 10 {
      assert k > 1;
      DigitsLength(n / 10, k - 1);
    }
  }

  // ----- what is accepted ------------------------------------------------------------------------------------

  /** Digits, or digits, a point, and one to seven digits. */
  ghost predicate IsDecimal(text: string, whole: string, frac: string) {
    && whole != [] && AllDigits(whole) && AllDigits(frac) && |frac| <= 7
    && text == if frac == [] then whole else whole + ['.'] + frac
  }

  /** Its value times ten to the seventh. */
  ghost function Scaled(whole: string, frac: string): nat
    requires AllDigits(whole) && AllDigits(frac) && |frac| <= 7
  {
    Number(whole) * SCALE + Number(frac) * Pow10(7 - |frac|)
  }

  lemma SplitDecimal(text: string, whole: string, frac: string)
    requires IsDecimal(text, whole, frac)
    ensures Split(text, '.') == if frac == [] then [whole] else [whole, frac]
  {
    NoPoint(whole);
    NoPoint(frac);
    if frac == [] {
      SplitJoin([whole], '.');
    } else {
      var parts := [whole, frac];
      assert parts[1..] == [frac];
      assert Join(parts, '.') == whole + ['.'] + frac;
      SplitJoin(parts, '.');
    }
  }

  lemma NoPoint(s: string)
    requires AllDigits(s)
    ensures '.' !in s
  {}

  lemma {:induction false} JoinSplit(text: string, sep: char)
    ensures Join(Split(text, sep), sep) == text
    decreases |text|
  {
    hide Join, Split, Head;
    var h := Head(text, sep);
    if |h| < |text| {
      var rest := text[|h| + 1..];
      JoinSplit(rest, sep);
      SplitMore(text, sep);
      JoinMore(h, Split(rest, sep), sep);
      CutAt(text, |h|);
    } else {
      SplitOnce(text, sep);
    }
  }

  lemma SplitMore(text: string, sep: char)
    requires |Head(text, sep)| < |text|
    ensures var h := Head(text, sep); Split(text, sep) == [h] + Split(text[|h| + 1..], sep)
  {}

  lemma SplitOnce(text: string, sep: char)
    requires |Head(text, sep)| == |text|
    ensures Join(Split(text, sep), sep) == text
  {}

  lemma JoinMore(h: string, parts: seq<string>, sep: char)
    requires parts != []
    ensures Join([h] + parts, sep) == h + [sep] + Join(parts, sep)
  {
    assert ([h] + parts)[1..] == parts;
  }

  lemma CutAt(text: string, i: nat)
    requires i < |text|
    ensures text == text[..i] + [text[i]] + text[i + 1..]
  {}

  lemma PaddedValue(whole: string, frac: string)
    requires AllDigits(whole) && AllDigits(frac) && |frac| <= 7
    ensures AllDigits(whole + PadRight(frac, 7)) && Number(whole + PadRight(frac, 7)) == Scaled(whole, frac)
  {
    NumberPadded(frac, 7);
    NumberAppend(whole, PadRight(frac, 7));
    Pow10Seven();
  }

  /** A decimal text parses to its scaled value, when that is positive. */
  lemma DecimalParses(decimal: string, whole: string, frac: string)
    requires IsDecimal(Trim(decimal), whole, frac)
    ensures DecimalToStroops(decimal) == if Scaled(whole, frac) == 0 then NotPositive else Stroops(Scaled(whole, frac))
  {
    hide Trim, Split, Number, PadRight, Scaled;
    SplitDecimal(Trim(decimal), whole, frac);
    PaddedValue(whole, frac);
  }

  /** Only decimal texts parse. */
  lemma ParsedIsDecimal(decimal: string) returns (whole: string, frac: string)
    requires DecimalToStroops(decimal).Stroops?
    ensures IsDecimal(Trim(decimal), whole, frac) && DecimalToStroops(decimal).value == Scaled(whole, frac)
  {
    hide Trim, Split, Number, PadRight, Scaled;
    var s := Trim(decimal);
    var parts := Split(s, '.');
    whole, frac := parts[0], if |parts| == 2 then parts[1] else [];
    JoinSplit(s, '.');
    assert |parts| == 2 ==> parts[1..] == [parts[1]];
    PaddedValue(whole, frac);
  }

  /** The text is a decimal with value n / 10^7. */
  ghost predicate Denotes(text: string, whole: string, frac: string, n: nat) {
    IsDecimal(text, whole, frac) && Scaled(whole, frac) == n
  }

  /**
   A text is accepted as n exactly when, trimmed, it is digits with an optional fraction of one to seven
   digits, and n is its value times ten to the seventh and positive.
   */
  lemma AcceptedIff(decimal: string, n: nat)
    ensures DecimalToStroops(decimal) == Stroops(n)
       <==> n > 0 && exists whole, frac :: Denotes(Trim(decimal), whole, frac, n)
  {
    hide Trim, Scaled, DecimalToStroops;
    if DecimalToStroops(decimal) == Stroops(n) {
      var whole, frac := ParsedIsDecimal(decimal);
      ParsedPositive(decimal);
      assert Denotes(Trim(decimal), whole, frac, n);
    }
    if n > 0 && exists whole, frac :: Denotes(Trim(decimal), whole, frac, n) {
      var whole, frac :| Denotes(Trim(decimal), whole, frac, n);
      DecimalParses(decimal, whole, frac);
    }
  }

  lemma ParsedPositive(decimal: string)
    ensures DecimalToStroops(decimal).Stroops? ==> DecimalToStroops(decimal).value > 0
  {
    hide Trim, Split, Number;
  }

  // ----- round trips --------------------------------------------------------------------------------------------

  lemma {:induction false} DropZerosValue(s: string)
    requires AllDigits(s)
    ensures var t := DropZeros(s); |t| <= |s| && AllDigits(t) && Number(s) == Number(t) * Pow10(|s| - |t|)
  {
    if s != [] && s[|s| - 1] == '0' {
      var front := s[..|s| - 1];
      DropZerosValue(front);
      var t := DropZeros(front);
      LastZero(s);
      TenTimes(Number(t), |front| - |t|);
      hide Pow10, Number;
    }
  }

  lemma LastZero(s: string)
    requires s != [] && AllDigits(s) && s[|s| - 1] == '0'
    ensures Number(s) == 10 * Number(s[..|s| - 1])
  {}

  lemma PrintedFraction(n: nat)
    requires n < SCALE
    ensures var frac := DropZeros(PadLeft(Digits(n), 7));
            AllDigits(frac) && |frac| <= 7 && Number(frac) * Pow10(7 - |frac|) == n
  {
    hide Digits, DropZeros, Number;
    Pow10Seven();
    DigitsLength(n, 7);
    NumberLeftPadded(Digits(n), 7);
    DropZerosValue(PadLeft(Digits(n), 7));
    NumberOfDigits(n);
  }

  lemma PrintedParts(n: nat)
    ensures var whole, frac := Digits(n / SCALE), DropZeros(PadLeft(Digits(n % SCALE), 7));
            IsDecimal(StroopsToDecimal(n), whole, frac) && Scaled(whole, frac) == n
  {
    hide Digits, DropZeros, Number, Pow10, PadLeft;
    PrintedFraction(n % SCALE);
    NumberOfDigits(n / SCALE);
  }

  lemma PrintedIsTrimmed(s: string)
    requires s != [] && !IsSpace(s[0]) && !IsSpace(s[|s| - 1])
    ensures Trim(s) == s
  {}

  /** Printing then parsing gives every positive amount back. */
  lemma StroopsRoundTrip(n: nat)
    requires n > 0
    ensures DecimalToStroops(StroopsToDecimal(n)) == Stroops(n)
  {
    hide Trim, Digits, DropZeros, Scaled, StroopsToDecimal, DecimalToStroops;
    var whole, frac := Digits(n / SCALE), DropZeros(PadLeft(Digits(n % SCALE), 7));
    PrintedParts(n);
    DecimalHasNoSpace(StroopsToDecimal(n), whole, frac);
    DecimalParses(StroopsToDecimal(n), whole, frac);
  }

  lemma DecimalHasNoSpace(text: string, whole: string, frac: string)
    requires IsDecimal(text, whole, frac)
    ensures Trim(text) == text
  {
    assert IsDigit(text[0]) && IsDigit(text[|text| - 1]);
    PrintedIsTrimmed(text);
  }

  /** Parsing then printing keeps the number: the printed text is accepted with the same value. */
  lemma DecimalRoundTrip(decimal: string)
    requires DecimalToStroops(decimal).Stroops?
    ensures DecimalToStroops(StroopsToDecimal(DecimalToStroops(decimal).value)) == DecimalToStroops(decimal)
  {
    hide StroopsToDecimal, DecimalToStroops;
    ParsedPositive(decimal);
    StroopsRoundTrip(DecimalToStroops(decimal).value);
  }

  // ----- 128-bit halves --------------------------------------------------------------------------------------------

  const TWO_64 := 0x1_0000_0000_0000_0000
  const TWO_63 := 0x8000_0000_0000_0000

  datatype Halves = Halves(hi: int, lo: nat)

  /** An arithmetic shift and a mask: the floor quotient and the remainder. */
  function Split128(n: int): Halves { Halves(n / TWO_64, n % TWO_64) }

  function Join128(h: Halves): int { h.hi * TWO_64 + h.lo % TWO_64 }

  /** Splitting fits the halves and joining undoes it, for every signed 128-bit amount and back. */
  lemma HalvesRoundTrip(n: int, h: Halves)
    requires -TWO_63 * TWO_64 <= n < TWO_63 * TWO_64
    requires -TWO_63 <= h.hi < TWO_63 && h.lo < TWO_64
    ensures -TWO_63 <= Split128(n).hi < TWO_63 && Split128(n).lo < TWO_64
    ensures Join128(Split128(n)) == n == Split128(n).hi * TWO_64 + Split128(n).lo
    ensures -TWO_63 * TWO_64 <= Join128(h) < TWO_63 * TWO_64 && Split128(Join128(h)) == h
  {}

  // ----- what is trimmed and how it is refused ----------------------------------------------------------------------

  ghost predicate AllSpaces(s: string) { forall i :: 0 <= i < |s| ==> IsSpace(s[i]) }

  /** The text without the white space around it: what is left neither starts nor ends with any. */
  lemma TrimIs(s: string) returns (left: string, right: string)
    ensures s == left + Trim(s) + right && AllSpaces(left) && AllSpaces(right)
    ensures Trim(s) != [] ==> !IsSpace(Trim(s)[0]) && !IsSpace(Trim(s)[|Trim(s)| - 1])
  {
    hide IsSpace;
    left := LeftTrimmed(s);
    right := RightTrimmed(TrimLeft(s));
    assert left + (Trim(s) + right) == left + Trim(s) + right;
    if Trim(s) != [] { assert Trim(s)[0] == TrimLeft(s)[0]; }
  }

  lemma {:induction false} LeftTrimmed(s: string) returns (left: string)
    ensures s == left + TrimLeft(s) && AllSpaces(left)
    ensures TrimLeft(s) != [] ==> !IsSpace(TrimLeft(s)[0])
  {
    hide IsSpace;
    if s != [] && IsSpace(s[0]) {
      var rest := LeftTrimmed(s[1..]);
      left := [s[0]] + rest;
      assert s == [s[0]] + s[1..];
    } else {
      left := [];
    }
  }

  lemma {:induction false} RightTrimmed(s: string) returns (right: string)
    ensures s == TrimRight(s) + right && AllSpaces(right)
    ensures TrimRight(s) != [] ==> !IsSpace(TrimRight(s)[|TrimRight(s)| - 1])
  {
    hide IsSpace;
    if s != [] && IsSpace(s[|s| - 1]) {
      var front := RightTrimmed(s[..|s| - 1]);
      right := front + [s[|s| - 1]];
      assert s == s[..|s| - 1] + [s[|s| - 1]];
    } else {
      right := [];
    }
  }

  // ----- the printed form -------------------------------------------------------------------------------------------

  lemma {:induction false} NoTrailingZero(s: string)
    ensures DropZeros(s) != [] ==> DropZeros(s)[|DropZeros(s)| - 1] != '0'
  {
    if s != [] && s[|s| - 1] == '0' { NoTrailingZero(s[..|s| - 1]); }
  }

  /**
   The sign, digits without leading zeros, and only where needed a point and up to seven digits that end in no zero;
   for the value n / 10^7.
   */
  ghost predicate IsPrinted(text: string, negative: bool, whole: string, frac: string, n: nat) {
    && var body := if frac == [] then whole else whole + ['.'] + frac;
    && Denotes(body, whole, frac, n) && text == (if negative then ['-'] + body else body)
    && (whole == "0" || whole[0] != '0') && (frac != [] ==> frac[|frac| - 1] != '0')
  }

  function WholeOf(n: nat): string { Digits(n / SCALE) }

  function FractionOf(n: nat): string { DropZeros(PadLeft(Digits(n % SCALE), 7)) }

  lemma NoZeros(n: nat)
    ensures WholeOf(n) == "0" || (WholeOf(n) != [] && WholeOf(n)[0] != '0')
    ensures FractionOf(n) != [] ==> FractionOf(n)[|FractionOf(n)| - 1] != '0'
  {
    hide Digits, DropZeros, PadLeft;
    NoLeadingZero(n / SCALE);
    NoTrailingZero(PadLeft(Digits(n % SCALE), 7));
  }

  lemma TextOf(stroops: int, n: nat)
    requires stroops == n || stroops + n == 0
    ensures var body := if FractionOf(n) == [] then WholeOf(n) else WholeOf(n) + ['.'] + FractionOf(n);
            StroopsToDecimal(stroops) == if stroops < 0 then ['-'] + body else body
  {
    hide Digits, DropZeros, PadLeft;
  }

  lemma PartsOf(n: nat)
    ensures Denotes(StroopsToDecimal(n), WholeOf(n), FractionOf(n), n)
  {
    hide Digits, DropZeros, PadLeft, StroopsToDecimal, Scaled, IsDecimal;
    PrintedParts(n);
  }

  /** Every amount, of either sign or zero, is printed in that form. */
  lemma PrintedForm(stroops: int, n: nat)
    requires stroops == n || stroops + n == 0
    ensures IsPrinted(StroopsToDecimal(stroops), stroops < 0, WholeOf(n), FractionOf(n), n)
  {
    hide WholeOf, FractionOf, StroopsToDecimal, Denotes;
    PartsOf(n);
    TextOf(n, n);
    TextOf(stroops, n);
    NoZeros(n);
  }

  /** Digits, a point, and more than seven digits. */
  ghost predicate IsLong(text: string, whole: string, frac: string) {
    whole != [] && AllDigits(whole) && AllDigits(frac) && |frac| > 7 && text == whole + ['.'] + frac
  }

  lemma LongRefused(decimal: string, whole: string, frac: string)
    requires IsLong(Trim(decimal), whole, frac)
    ensures DecimalToStroops(decimal) == TooManyDecimals
  {
    hide Trim, Split, Number, PadRight;
    NoPoint(whole);
    NoPoint(frac);
    var parts := [whole, frac];
    assert parts[1..] == [frac];
    assert Join(parts, '.') == whole + ['.'] + frac;
    SplitJoin(parts, '.');
  }

  /** A text of the first five outcomes, cut at its point. */
  lemma Parts(decimal: string) returns (whole: string, frac: string)
    ensures DecimalToStroops(decimal) == TooManyDecimals ==> IsLong(Trim(decimal), whole, frac)
    ensures DecimalToStroops(decimal) == NotPositive ==> Denotes(Trim(decimal), whole, frac, 0)
    ensures DecimalToStroops(decimal) == IsEmpty <==> Trim(decimal) == []
  {
    hide Trim, Split, Number, PadRight, Scaled;
    var s := Trim(decimal);
    var parts := Split(s, '.');
    whole, frac := parts[0], if |parts| == 2 then parts[1] else [];
    JoinSplit(s, '.');
    assert |parts| == 2 ==> parts[1..] == [parts[1]];
    if DecimalToStroops(decimal) == NotPositive { PaddedValue(whole, frac); }
  }

  /** Why a text is refused: as empty, as zero, for its decimals; any other as no decimal. */
  lemma RefusedIs(decimal: string)
    ensures DecimalToStroops(decimal) == IsEmpty <==> Trim(decimal) == []
    ensures DecimalToStroops(decimal) == NotPositive
       <==> exists whole, frac :: Denotes(Trim(decimal), whole, frac, 0)
    ensures DecimalToStroops(decimal) == TooManyDecimals <==> exists whole, frac :: IsLong(Trim(decimal), whole, frac)
  {
    hide Trim, Scaled, DecimalToStroops, IsLong;
    var whole, frac := Parts(decimal);
    if w, f :| Denotes(Trim(decimal), w, f, 0) { DecimalParses(decimal, w, f); }
    if w, f :| IsLong(Trim(decimal), w, f) { LongRefused(decimal, w, f); }
  }
}
