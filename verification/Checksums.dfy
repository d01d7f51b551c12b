/** Text encodings around SHA-256: UTF-8, the hex digest of a text, and payload checksums. */
module Checksums {
  import Bytes
  import Hex
  import Sha256

  /** UTF-8 of one character. */
  function EncodeChar(c: char): seq<bv8> {
    var n := c as int;
    if n < 0x80 then [Byte(n)]
    else if n < 0x800 then [Byte(0xC0 + n / 0x40), Byte(0x80 + n % 0x40)]
    else if n < 0x1_0000 then [Byte(0xE0 + n / 0x1000), Byte(0x80 + n / 0x40 % 0x40), Byte(0x80 + n % 0x40)]
    else [Byte(0xF0 + n / 0x4_0000), Byte(0x80 + n / 0x1000 % 0x40), Byte(0x80 + n / 0x40 % 0x40),
          Byte(0x80 + n % 0x40)]
  }

  function Byte(n: nat): bv8 { (n % 256) as bv8 }

  function Utf8(text: string): seq<bv8> {
    if text == [] then [] else EncodeChar(text[0]) + Utf8(text[1..])
  }

  function Sha256Hex(text: string): (h: string)
    ensures |h| == 64
  {
    Hex.Of(Sha256.Digest(Utf8(text)))
  }

  /** The checksum carried in every frame: the first 8 hex digits of the digest of the hex text. */
  function OfPayload(payload: seq<bv8>): (c: string)
    ensures |c| == 8
  {
    Sha256Hex(Hex.Of(payload))[..8]
  }

  function LowerChar(c: char): char {
    if 'A' <= c <= 'Z' then c - 'A' + 'a' else c
  }

  /** Lower case of ASCII letters; digests contain no other letters. */
  function Lower(text: string): string {
    seq(|text|, i requires 0 <= i < |text| => LowerChar(text[i]))
  }

  // ----- UTF-8 as section 3 of RFC 3629 has it ------------------------------------------------

  /** A byte that goes on with a character holds six bits of it. */
  predicate Continues(b: int) { 0x80 <= b < 0xC0 }

  /** The character number that one to four bytes stand for. */
  function Denoted(b: seq<int>): int
    requires 1 <= |b| <= 4
  {
    if |b| == 1 then b[0]
    else if |b| == 2 then (b[0] - 0xC0) * 0x40 + (b[1] - 0x80)
    else if |b| == 3 then (b[0] - 0xE0) * 0x1000 + (b[1] - 0x80) * 0x40 + (b[2] - 0x80)
    else (b[0] - 0xF0) * 0x4_0000 + (b[1] - 0x80) * 0x1000 + (b[2] - 0x80) * 0x40 + (b[3] - 0x80)
  }

  /** The length that a first byte announces. */
  function Announced(b: int): nat { if b < 0x80 then 1 else if b < 0xE0 then 2 else if b < 0xF0 then 3 else 4 }

  function Numbers(b: seq<bv8>): (n: seq<int>)
    ensures |n| == |b|
  {
    seq(|b|, i requires 0 <= i < |b| => Bytes.Nat(b[i]))
  }

  lemma ByteNumber(n: nat)
    requires n < 256
    ensures Bytes.Nat(Byte(n)) == n
  {
    Bytes.NatOfByte(n);
  }

  /** `b` is the encoding of character number `n`, in `k` bytes. */
  predicate Encodes(b: seq<int>, n: int, k: nat) {
    && |b| == k && 1 <= k <= 4 && Denoted(b) == n && Announced(b[0]) == k && !Continues(b[0])
    && forall i :: 1 <= i < k ==> Continues(b[i])
  }

  lemma TwoBytes(n: nat)
    requires 0x80 <= n < 0x800
    ensures Encodes([0xC0 + n / 0x40, 0x80 + n % 0x40], n, 2)
  {}

  lemma ThreeBytes(n: nat)
    requires 0x800 <= n < 0x1_0000
    ensures Encodes([0xE0 + n / 0x1000, 0x80 + n / 0x40 % 0x40, 0x80 + n % 0x40], n, 3)
  {}

  lemma FourBytes(n: nat)
    requires 0x1_0000 <= n < 0x11_0000
    ensures Encodes([0xF0 + n / 0x4_0000, 0x80 + n / 0x1000 % 0x40, 0x80 + n / 0x40 % 0x40, 0x80 + n % 0x40], n, 4)
  {
    SixBits(n);
    hide Encodes;
    FromDigits(n / 0x4_0000, n / 0x1000 % 0x40, n / 0x40 % 0x40, n % 0x40);
  }

  lemma SixBits(n: nat)
    ensures n == n / 0x4_0000 * 0x4_0000 + n / 0x1000 % 0x40 * 0x1000 + n / 0x40 % 0x40 * 0x40 + n % 0x40
  {
    var m := n / 0x40;
    var k := m / 0x40;
    assert k == n / 0x1000 && k / 0x40 == n / 0x4_0000;
  }

  lemma FromDigits(a: nat, b: nat, c: nat, d: nat)
    requires a < 8 && b < 0x40 && c < 0x40 && d < 0x40
    ensures Encodes([0xF0 + a, 0x80 + b, 0x80 + c, 0x80 + d], a * 0x4_0000 + b * 0x1000 + c * 0x40 + d, 4)
  {}

  /** A character takes as many bytes as it needs; the first announces how many, the others go on. */
  lemma CharEncoded(c: char)
    ensures var n, b := c as int, Numbers(EncodeChar(c));
            Encodes(b, n, if n < 0x80 then 1 else if n < 0x800 then 2 else if n < 0x1_0000 then 3 else 4)
  {
    hide Byte, Bytes.Nat;
    var n := c as int;
    if n < 0x80 {
      ByteNumber(n);
    } else if n < 0x800 {
      hide Encodes;
      ByteNumber(0xC0 + n / 0x40);
      ByteNumber(0x80 + n % 0x40);
      TwoBytes(n);
      assert Numbers(EncodeChar(c)) == [0xC0 + n / 0x40, 0x80 + n % 0x40];
    } else if n < 0x1_0000 {
      hide Encodes;
      ByteNumber(0xE0 + n / 0x1000);
      ByteNumber(0x80 + n / 0x40 % 0x40);
      ByteNumber(0x80 + n % 0x40);
      ThreeBytes(n);
      assert Numbers(EncodeChar(c)) == [0xE0 + n / 0x1000, 0x80 + n / 0x40 % 0x40, 0x80 + n % 0x40];
    } else {
      hide Encodes;
      ByteNumber(0xF0 + n / 0x4_0000);
      ByteNumber(0x80 + n / 0x1000 % 0x40);
      ByteNumber(0x80 + n / 0x40 % 0x40);
      ByteNumber(0x80 + n % 0x40);
      FourBytes(n);
      assert Numbers(EncodeChar(c))
          == [0xF0 + n / 0x4_0000, 0x80 + n / 0x1000 % 0x40, 0x80 + n / 0x40 % 0x40, 0x80 + n % 0x40];
    }
  }

  /** The first character of a text can be told from its bytes. */
  lemma FirstChar(c: char, x: seq<bv8>, d: char, y: seq<bv8>)
    requires EncodeChar(c) + x == EncodeChar(d) + y
    ensures c == d && x == y
  {
    hide EncodeChar, Denoted;
    var u, v := EncodeChar(c), EncodeChar(d);
    CharEncoded(c);
    CharEncoded(d);
    assert u[0] == (u + x)[0] && v[0] == (v + y)[0];
    assert Numbers(u)[0] == Numbers(v)[0];
    assert u == (u + x)[..|u|] && v == (v + y)[..|v|];
    assert x == (u + x)[|u|..] && y == (v + y)[|v|..];
  }

  /** Different texts have different bytes, so a collision of two texts is one of SHA-256. */
  lemma {:induction false} Utf8Injective(a: string, b: string)
    requires Utf8(a) == Utf8(b)
    ensures a == b
  {
    hide EncodeChar;
    if a != [] && b != [] {
      FirstChar(a[0], Utf8(a[1..]), b[0], Utf8(b[1..]));
      Utf8Injective(a[1..], b[1..]);
      assert a == [a[0]] + a[1..] && b == [b[0]] + b[1..];
    } else {
      SomeBytes(a);
      SomeBytes(b);
    }
  }

  lemma SomeBytes(a: string)
    ensures a != [] ==> Utf8(a) != []
  {
    if a != [] { CharEncoded(a[0]); }
  }

  // ----- letter case, and the short checksum --------------------------------------------------

  lemma LowerLetters()
    ensures Lower("ABCDEFGHIJKLM") == "abcdefghijklm" && Lower("NOPQRSTUVWXYZ") == "nopqrstuvwxyz"
    ensures forall c: char :: !('A' <= c <= 'Z') ==> LowerChar(c) == c
  {}

  /** The checksum of a frame begins the digest of the payload's hex text. */
  lemma PayloadChecksum(payload: seq<bv8>)
    ensures OfPayload(payload) <= Sha256Hex(Hex.Of(payload)) && |OfPayload(payload)| == 8
  {
    hide Sha256Hex;
  }
}
