/** Splitting and joining text, and decimal integers. */
module Text {

  datatype Option<+T> = None | Some(value: T)

  // ----- split and join ----------------------------------------------------------------------

  function Join(parts: seq<string>, sep: char): string {
    if parts == [] then []
    else if |parts| == 1 then parts[0]
    else parts[0] + [sep] + Join(parts[1..], sep)
  }

  /** The text up to the first separator. */
  function Head(text: string, sep: char): (h: string)
    ensures |h| <= |text| && h == text[..|h|]
    ensures sep !in h
    ensures |h| < |text| ==> text[|h|] == sep
  {
    if text == [] || text[0] == sep then [] else [text[0]] + Head(text[1..], sep)
  }

  function Split(text: string, sep: char): (parts: seq<string>)
    ensures parts != []
    decreases |text|
  {
    var h := Head(text, sep);
    if |h| == |text| then [text] else [h] + Split(text[|h| + 1..], sep)
  }

  lemma {:induction false} HeadOfJoined(part: string, sep: char, rest: string)
    requires sep !in part
    ensures Head(part + [sep] + rest, sep) == part && Head(part, sep) == part
  {
    if part != [] {
      HeadOfJoined(part[1..], sep, rest);
      assert (part + [sep] + rest)[1..] == part[1..] + [sep] + rest;
    }
  }

  /** Splitting joined parts gives the parts back, when none contains the separator. */
  lemma {:induction false} SplitJoin(parts: seq<string>, sep: char)
    requires parts != [] && forall i :: 0 <= i < |parts| ==> sep !in parts[i]
    ensures Split(Join(parts, sep), sep) == parts
  {
    if |parts| == 1 {
      HeadOfJoined(parts[0], sep, []);
    } else {
      var rest := Join(parts[1..], sep);
      HeadOfJoined(parts[0], sep, rest);
      SplitJoin(parts[1..], sep);
      var whole := parts[0] + [sep] + rest;
      assert whole[|parts[0]| + 1..] == rest;
    }
  }

  // ----- decimal integers ----------------------------------------------------------------------

  predicate IsDigit(c: char) { '0' <= c <= '9' }

  predicate AllDigits(s: string) {
    forall i :: 0 <= i < |s| ==> IsDigit(s[i])
  }

  function DigitOf(d: nat): (c: char)
    requires d < 10
    ensures IsDigit(c)
  {
    '0' + d as char
  }

  function ValueOf(c: char): (d: nat)
    requires IsDigit(c)
    ensures d < 10
  {
    (c - '0') as nat
  }

  function Digits(n: nat): (s: string)
    ensures s != [] && AllDigits(s)
  {
    if n < 10 then [DigitOf(n)] else Digits(n / 10) + [DigitOf(n % 10)]
  }

  /** Decimal text of an integer. */
  function Print(n: int): string {
    if n < 0 then ['-'] + Digits(-n) else Digits(n)
  }

  /** The number a digit text denotes, most significant digit first. */
  function Number(s: string): nat
    requires AllDigits(s)
  {
    if s == [] then 0 else 10 * Number(s[..|s| - 1]) + ValueOf(s[|s| - 1])
  }

  /** Parses an optional sign and decimal digits. */
  function TryParse(s: string): Option<int> {
    if s != [] && (s[0] == '-' || s[0] == '+') then
      if s[1..] == [] || !AllDigits(s[1..]) then None
      else
        var n: int := Number(s[1..]);
        Some(if s[0] == '-' then -n else n)
    else if s == [] || !AllDigits(s) then None
    else Some(Number(s))
  }

  lemma DigitRoundTrip(d: nat)
    requires d < 10
    ensures ValueOf(DigitOf(d)) == d
  {}

  lemma {:induction false} NumberOfDigits(n: nat)
    ensures Number(Digits(n)) == n
  {
    DigitRoundTrip(n % 10);
    if n < 10 {
      assert Digits(n)[..0] == [];
    } else {
      NumberOfDigits(n / 10);
      var s := Digits(n);
      assert s[..|s| - 1] == Digits(n / 10);
    }
  }

  /** Parsing printed integers gives them back, and their text holds only digits and a sign. */
  lemma PrintRoundTrip(n: int)
    ensures TryParse(Print(n)) == Some(n)
    ensures forall i :: 0 <= i < |Print(n)| ==> IsDigit(Print(n)[i]) || Print(n)[i] == '-'
  {
    if n < 0 {
      NumberOfDigits(-n);
      assert Print(n)[1..] == Digits(-n);
    } else {
      NumberOfDigits(n);
    }
  }

  // ----- the digits ------------------------------------------------------------------------------

  lemma TenDigits()
    ensures [DigitOf(0), DigitOf(1), DigitOf(2), DigitOf(3), DigitOf(4)] == "01234"
    ensures [DigitOf(5), DigitOf(6), DigitOf(7), DigitOf(8), DigitOf(9)] == "56789"
  {}

  /** No number but 0 starts with a zero. */
  lemma {:induction false} NoLeadingZero(n: nat)
    ensures n > 0 ==> Digits(n)[0] != '0'
    ensures n == 0 ==> Digits(n) == "0"
  {
    if n >= 10 { NoLeadingZero(n / 10); }
  }

  /** Digits with at most one sign in front are a number, and nothing else is. */
  lemma NumberIff(s: string, n: int)
    ensures TryParse(s) == Some(n) <==>
            || (s != [] && AllDigits(s) && n == Number(s))
            || (|s| > 1 && s[0] == '+' && AllDigits(s[1..]) && n == Number(s[1..]))
            || (|s| > 1 && s[0] == '-' && AllDigits(s[1..]) && n + Number(s[1..]) == 0)
  {
    hide Number;
  }
}
