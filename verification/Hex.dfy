/** Lower-case hexadecimal text of bytes, and back. */
module Hex {

  datatype Parsed = Bytes(bytes: seq<bv8>) | FormatError

  function Digit(d: bv8): char {
    if d == 0 then '0' else if d == 1 then '1' else if d == 2 then '2' else if d == 3 then '3'
    else if d == 4 then '4' else if d == 5 then '5' else if d == 6 then '6' else if d == 7 then '7'
    else if d == 8 then '8' else if d == 9 then '9' else if d == 10 then 'a' else if d == 11 then 'b'
    else if d == 12 then 'c' else if d == 13 then 'd' else if d == 14 then 'e' else 'f'
  }

  predicate IsDigit(c: char) {
    '0' <= c <= '9' || 'a' <= c <= 'f' || 'A' <= c <= 'F'
  }

  function DigitValue(c: char): bv8
    requires IsDigit(c)
  {
    if c == '0' then 0 else if c == '1' then 1 else if c == '2' then 2 else if c == '3' then 3
    else if c == '4' then 4 else if c == '5' then 5 else if c == '6' then 6 else if c == '7' then 7
    else if c == '8' then 8 else if c == '9' then 9 else if c == 'a' || c == 'A' then 10
    else if c == 'b' || c == 'B' then 11 else if c == 'c' || c == 'C' then 12
    else if c == 'd' || c == 'D' then 13 else if c == 'e' || c == 'E' then 14 else 15
  }

  function High(b: bv8): bv8 { b >> 4 }

  function Low(b: bv8): bv8 { b & 0xf }

  function Join(h: bv8, l: bv8): bv8 { (h << 4) | l }

  function Of(bytes: seq<bv8>): (text: string)
    ensures |text| == 2 * |bytes|
  {
    if bytes == [] then [] else [Digit(High(bytes[0])), Digit(Low(bytes[0]))] + Of(bytes[1..])
  }

  predicate IsSpace(c: char) {
    c == ' ' || c == '\t' || c == '\n' || c == '\r'
  }

  /** Removes white space and every `0x`, as the clean-up before parsing does. */
  function Clean(text: string): string {
    if text == [] then []
    else if IsSpace(text[0]) then Clean(text[1..])
    else if |text| >= 2 && text[0] == '0' && text[1] == 'x' then Clean(text[2..])
    else [text[0]] + Clean(text[1..])
  }

  /** A pair the integer parser takes: two digits, or a sign and one digit. */
  predicate IsPair(c: char, d: char) {
    (IsDigit(c) || c == '+' || c == '-') && IsDigit(d)
  }

  /** Its value as stored in a byte, so a negative one wraps. */
  function PairValue(c: char, d: char): bv8
    requires IsPair(c, d)
  {
    if c == '+' then DigitValue(d)
    else if c == '-' then 0 - DigitValue(d)
    else Join(DigitValue(c), DigitValue(d))
  }

  function ParsePairs(text: string): Parsed {
    if text == [] then Bytes([])
    else if |text| == 1 || !IsPair(text[0], text[1]) then FormatError
    else match ParsePairs(text[2..])
      case FormatError => FormatError
      case Bytes(rest) => Bytes([PairValue(text[0], text[1])] + rest)
  }

  /** Two hex digits a byte; an odd length or another character is a format error. */
  function Parse(text: string): Parsed {
    var clean := Clean(text);
    if |clean| % 2 != 0 then FormatError else ParsePairs(clean)
  }

  // ----- round trip ------------------------------------------------------------------------

  lemma DigitRoundTrip(d: bv8)
    requires d < 16
    ensures IsDigit(Digit(d)) && DigitValue(Digit(d)) == d
    ensures Digit(d) != 'x' && Digit(d) != '+' && Digit(d) != '-' && !IsSpace(Digit(d)) && !('A' <= Digit(d) <= 'Z')
  {
    assert d == 0 || d == 1 || d == 2 || d == 3 || d == 4 || d == 5 || d == 6 || d == 7
      || d == 8 || d == 9 || d == 10 || d == 11 || d == 12 || d == 13 || d == 14 || d == 15;
  }

  lemma NibbleRoundTrip(b: bv8)
    ensures High(b) < 16 && Low(b) < 16
    ensures Join(High(b), Low(b)) == b
  {}

  lemma {:induction false} DigitsOnly(bytes: seq<bv8>)
    ensures forall i :: 0 <= i < |Of(bytes)| ==>
      var c := Of(bytes)[i]; IsDigit(c) && c != 'x' && !IsSpace(c) && !('A' <= c <= 'Z')
  {
    if bytes != [] {
      hide High, Low, Digit, IsDigit, IsSpace;
      var b := bytes[0];
      NibbleRoundTrip(b);
      DigitRoundTrip(High(b));
      DigitRoundTrip(Low(b));
      DigitsOnly(bytes[1..]);
    }
  }

  lemma {:induction false} CleanKeeps(text: string)
    requires forall i :: 0 <= i < |text| ==> text[i] != 'x' && !IsSpace(text[i])
    ensures Clean(text) == text
  {
    if text != [] { CleanKeeps(text[1..]); }
  }

  lemma NextPair(c: char, d: char, rest: string)
    requires IsPair(c, d)
    ensures ParsePairs([c, d] + rest)
         == match ParsePairs(rest) case FormatError => FormatError case Bytes(b) => Bytes([PairValue(c, d)] + b)
  {
    hide IsPair, PairValue;
    assert ([c, d] + rest)[2..] == rest;
  }

  lemma ByteBack(b: bv8)
    ensures IsPair(Digit(High(b)), Digit(Low(b))) && PairValue(Digit(High(b)), Digit(Low(b))) == b
  {
    hide High, Low, Digit, DigitValue, Join, IsDigit;
    NibbleRoundTrip(b);
    DigitRoundTrip(High(b));
    DigitRoundTrip(Low(b));
  }

  lemma {:induction false} ParsePairsOf(bytes: seq<bv8>)
    ensures ParsePairs(Of(bytes)) == Bytes(bytes)
  {
    hide High, Low, Digit, IsPair, PairValue;
    if bytes != [] {
      hide ParsePairs;
      var b := bytes[0];
      ByteBack(b);
      ParsePairsOf(bytes[1..]);
      NextPair(Digit(High(b)), Digit(Low(b)), Of(bytes[1..]));
    }
  }

  /** Parsing the hex text of bytes gives the bytes back. */
  lemma RoundTrip(bytes: seq<bv8>)
    ensures Parse(Of(bytes)) == Bytes(bytes)
  {
    hide *;
    DigitsOnly(bytes);
    assert forall i :: 0 <= i < |Of(bytes)| ==> Of(bytes)[i] != 'x' && !IsSpace(Of(bytes)[i]);
    CleanKeeps(Of(bytes));
    ParsePairsOf(bytes);
    ParseClean(Of(bytes));
  }

  lemma ParseClean(text: string)
    requires Clean(text) == text && |text| % 2 == 0
    ensures Parse(text) == ParsePairs(text)
  {}

  // ----- what is written and what is taken ---------------------------------------------------

  lemma SixteenDigits()
    ensures Digit(0) == '0' && Digit(1) == '1' && Digit(2) == '2' && Digit(3) == '3'
    ensures Digit(4) == '4' && Digit(5) == '5' && Digit(6) == '6' && Digit(7) == '7'
    ensures Digit(8) == '8' && Digit(9) == '9' && Digit(10) == 'a' && Digit(11) == 'b'
    ensures Digit(12) == 'c' && Digit(13) == 'd' && Digit(14) == 'e' && Digit(15) == 'f'
  {}

  lemma NibblesAre(b: bv8)
    ensures High(b) == b / 16 && Low(b) == b % 16
  {}

  /** The text of a byte string, place by place: sixteens first. */
  lemma {:induction false} WrittenAt(bytes: seq<bv8>, i: nat)
    requires i < |bytes|
    ensures Of(bytes)[2 * i] == Digit(bytes[i] / 16) && Of(bytes)[2 * i + 1] == Digit(bytes[i] % 16)
  {
    hide High, Low, Digit;
    NibblesAre(bytes[0]);
    if i > 0 {
      WrittenAt(bytes[1..], i - 1);
      assert Of(bytes)[2..] == Of(bytes[1..]);
    }
  }

  predicate PairAt(text: string, i: nat) {
    2 * i + 1 < |text| && IsPair(text[2 * i], text[2 * i + 1])
  }

  /** Cleaned text is taken exactly when it is pairs, each for its value. */
  lemma {:induction false} PairsTaken(text: string)
    ensures ParsePairs(text).Bytes? <==> |text| % 2 == 0 && forall i: nat :: i < |text| / 2 ==> PairAt(text, i)
    ensures ParsePairs(text).Bytes? ==>
              |ParsePairs(text).bytes| == |text| / 2
              && forall i: nat :: i < |text| / 2 ==>
                   PairAt(text, i) && ParsePairs(text).bytes[i] == PairValue(text[2 * i], text[2 * i + 1])
  {
    hide IsPair, PairValue;
    if |text| >= 2 {
      var rest := text[2..];
      PairsTaken(rest);
      forall i: nat | 0 < i < |text| / 2
        ensures PairAt(text, i) <==> PairAt(rest, i - 1)
        ensures text[2 * i] == rest[2 * (i - 1)] && text[2 * i + 1] == rest[2 * (i - 1) + 1]
      {}
      if ParsePairs(text).FormatError? && |text| % 2 == 0 && PairAt(text, 0) {
        var i: nat :| i < |rest| / 2 && !PairAt(rest, i);
        assert !PairAt(text, i + 1);
      }
      if IsPair(text[0], text[1]) { assert PairAt(text, 0); }
    }
  }

  /** Either letter case, and a sign with one digit; the byte keeps the low eight bits. */
  lemma PairValues()
    ensures PairValue('f', 'F') == 0xff && PairValue('0', '7') == 7 && PairValue('A', '0') == 0xa0
    ensures PairValue('+', '7') == 7 && PairValue('-', '1') == 0xff
  {}

  /** The clean-up, on white space and the prefix, in either place. */
  lemma CleanOne()
    ensures Clean("0x1 2") == "12"
  {
    assert "0x1 2"[2..] == "1 2" && "1 2"[1..] == " 2" && " 2"[1..] == "2" && "2"[1..] == "";
    assert Clean("2") == "2";
    assert Clean(" 2") == "2";
    assert Clean("1 2") == "12";
  }

  lemma CleanTwo()
    ensures Clean("1\t\n\r0xX") == "1X"
  {
    assert "1\t\n\r0xX"[1..] == "\t\n\r0xX" && "\t\n\r0xX"[1..] == "\n\r0xX" && "\n\r0xX"[1..] == "\r0xX";
    assert "\r0xX"[1..] == "0xX" && "0xX"[2..] == "X" && "X"[1..] == "";
    assert Clean("X") == "X";
    assert Clean("0xX") == "X";
    assert Clean("\r0xX") == "X";
    assert Clean("\n\r0xX") == "X";
    assert Clean("\t\n\r0xX") == "X";
  }
}
