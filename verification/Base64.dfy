/** The URL-safe base64 encoding of section 5 of RFC 4648, with padding, and its decoder. */
module Base64 {
  import opened Bytes
  import opened Text

  function SymbolOf(v: nat): char
    requires v < 64
  {
    if v < 26 then 'A' + v as char
    else if v < 52 then 'a' + (v - 26) as char
    else if v < 62 then '0' + (v - 52) as char
    else if v == 62 then '-' else '_'
  }

  /** The decoder takes the standard and the URL-safe alphabet. */
  predicate IsSymbol(c: char) {
    'A' <= c <= 'Z' || 'a' <= c <= 'z' || '0' <= c <= '9' || c == '+' || c == '/'
  }

  function ValueOf(c: char): (v: nat)
    requires IsSymbol(c)
    ensures v < 64
  {
    if 'A' <= c <= 'Z' then (c - 'A') as nat
    else if 'a' <= c <= 'z' then (c - 'a') as nat + 26
    else if '0' <= c <= '9' then (c - '0') as nat + 52
    else if c == '+' then 62 else 63
  }

  // The four 6-bit values of a group of three bytes, and the bytes of a group of four values.

  function Sextet1(x: nat): nat { x / 4 }

  function Sextet2(x: nat, y: nat): nat { x % 4 * 16 + y / 16 }

  function Sextet3(y: nat, z: nat): nat { y % 16 * 4 + z / 64 }

  function Sextet4(z: nat): nat { z % 64 }

  function Octet1(v0: nat, v1: nat): nat { v0 * 4 + v1 / 16 }

  function Octet2(v1: nat, v2: nat): nat { v1 % 16 * 16 + v2 / 4 }

  function Octet3(v2: nat, v3: nat): nat { v2 % 4 * 64 + v3 }

  lemma SextetsFit(x: nat, y: nat)
    requires x < 256 && y < 256
    ensures Sextet1(x) < 64 && Sextet2(x, y) < 64 && Sextet3(x, y) < 64 && Sextet4(x) < 64
  {}

  lemma OctetsFit(v: nat, w: nat)
    requires v < 64 && w < 64
    ensures Octet1(v, w) < 256 && Octet2(v, w) < 256 && Octet3(v, w) < 256
  {}

  lemma OctetsBack(x: nat, y: nat, z: nat)
    requires x < 256 && y < 256 && z < 256
    ensures Octet1(Sextet1(x), Sextet2(x, y)) == x
    ensures Octet2(Sextet2(x, y), Sextet3(y, z)) == y
    ensures Octet3(Sextet3(y, z), Sextet4(z)) == z
  {}

  function First(x: bv8): char { SextetsFit(Nat(x), 0); SymbolOf(Sextet1(Nat(x))) }

  function Second(x: bv8, y: bv8): char { SextetsFit(Nat(x), Nat(y)); SymbolOf(Sextet2(Nat(x), Nat(y))) }

  function Third(y: bv8, z: bv8): char { SextetsFit(Nat(y), Nat(z)); SymbolOf(Sextet3(Nat(y), Nat(z))) }

  function Fourth(z: bv8): char { SextetsFit(Nat(z), 0); SymbolOf(Sextet4(Nat(z))) }

  function Encode(b: seq<bv8>): string {
    if b == [] then []
    else if |b| == 1 then [First(b[0]), Second(b[0], 0), '=', '=']
    else if |b| == 2 then [First(b[0]), Second(b[0], b[1]), Third(b[1], 0), '=']
    else [First(b[0]), Second(b[0], b[1]), Third(b[1], b[2]), Fourth(b[2])] + Encode(b[3..])
  }

  function Standard(c: char): char {
    if c == '-' then '+' else if c == '_' then '/' else c
  }

  function Normalize(s: string): string {
    seq(|s|, i requires 0 <= i < |s| => Standard(s[i]))
  }

  function PadTo4(s: string): (p: string)
    ensures |p| % 4 == 0
    ensures |s| % 4 == 0 ==> p == s
  {
    if |s| % 4 == 0 then s else if |s| % 4 == 3 then s + "=" else if |s| % 4 == 2 then s + "==" else s + "==="
  }

  // The three bytes of a group of four symbols.

  function ByteA(c0: char, c1: char): bv8
    requires IsSymbol(c0) && IsSymbol(c1)
  {
    OctetsFit(ValueOf(c0), ValueOf(c1));
    Byte(Octet1(ValueOf(c0), ValueOf(c1)))
  }

  function ByteB(c1: char, c2: char): bv8
    requires IsSymbol(c1) && IsSymbol(c2)
  {
    OctetsFit(ValueOf(c1), ValueOf(c2));
    Byte(Octet2(ValueOf(c1), ValueOf(c2)))
  }

  function ByteC(c2: char, c3: char): bv8
    requires IsSymbol(c2) && IsSymbol(c3)
  {
    OctetsFit(ValueOf(c2), ValueOf(c3));
    Byte(Octet3(ValueOf(c2), ValueOf(c3)))
  }

  /** The symbol's bits below the last byte are zero. */
  predicate Clear(c: char, bits: nat)
    requires IsSymbol(c) && bits > 0
  {
    ValueOf(c) % bits == 0
  }

  /** Groups of four symbols; padding only at the end and over zero bits. `None` is a format error. */
  function DecodeGroups(s: string): Option<seq<bv8>> {
    if s == [] then Some([])
    else if |s| < 4 || !IsSymbol(s[0]) || !IsSymbol(s[1]) then None
    else if |s| == 4 && s[2] == '=' && s[3] == '=' then
      if Clear(s[1], 16) then Some([ByteA(s[0], s[1])]) else None
    else if !IsSymbol(s[2]) then None
    else if |s| == 4 && s[3] == '=' then
      if Clear(s[2], 4) then Some([ByteA(s[0], s[1]), ByteB(s[1], s[2])]) else None
    else if !IsSymbol(s[3]) then None
    else match DecodeGroups(s[4..])
      case None => None
      case Some(rest) => Some([ByteA(s[0], s[1]), ByteB(s[1], s[2]), ByteC(s[2], s[3])] + rest)
  }

  function Decode(s: string): Option<seq<bv8>> {
    DecodeGroups(PadTo4(Normalize(s)))
  }

  // ----- round trip ------------------------------------------------------------------------

  lemma SymbolRoundTrip(v: nat)
    requires v < 64
    ensures IsSymbol(Standard(SymbolOf(v))) && ValueOf(Standard(SymbolOf(v))) == v
    ensures SymbolOf(v) != ':' && SymbolOf(v) != '='
  {}

  lemma ByteRoundTrip(b: bv8)
    ensures Byte(Nat(b)) == b
  {}

  lemma SymbolsBack(x: bv8, y: bv8, z: bv8)
    ensures var c0, c1 := Standard(First(x)), Standard(Second(x, y));
            var c2, c3 := Standard(Third(y, z)), Standard(Fourth(z));
            && IsSymbol(c0) && IsSymbol(c1) && IsSymbol(c2) && IsSymbol(c3)
            && ByteA(c0, c1) == x && ByteB(c1, c2) == y && ByteC(c2, c3) == z
  {
    hide SymbolOf, IsSymbol, ValueOf, Nat, Byte, Standard, Sextet1, Sextet2, Sextet3, Sextet4, Octet1, Octet2, Octet3;
    var n, m, l := Nat(x), Nat(y), Nat(z);
    OctetsBack(n, m, l);
    SextetsFit(n, m);
    SextetsFit(m, l);
    SextetsFit(l, 0);
    SymbolRoundTrip(Sextet1(n));
    SymbolRoundTrip(Sextet2(n, m));
    SymbolRoundTrip(Sextet3(m, l));
    SymbolRoundTrip(Sextet4(l));
    ByteRoundTrip(x);
    ByteRoundTrip(y);
    ByteRoundTrip(z);
  }

  lemma NatZero()
    ensures Nat(0) == 0
  {}

  lemma SextetsClear(x: nat)
    ensures Sextet2(x, 0) % 16 == 0 && Sextet3(x, 0) % 4 == 0
  {}

  lemma ClearTails(x: bv8)
    ensures var c := Standard(Second(x, 0)); IsSymbol(c) && Clear(c, 16)
    ensures var c := Standard(Third(x, 0)); IsSymbol(c) && Clear(c, 4)
  {
    hide SymbolOf, IsSymbol, ValueOf, Nat, Standard, Sextet2, Sextet3;
    NatZero();
    SextetsClear(Nat(x));
    SextetsFit(Nat(x), 0);
    SymbolRoundTrip(Sextet2(Nat(x), 0));
    SymbolRoundTrip(Sextet3(Nat(x), 0));
  }

  lemma NoColon(x: bv8, y: bv8)
    ensures First(x) != ':' && Second(x, y) != ':' && Third(x, y) != ':' && Fourth(x) != ':'
  {
    hide SymbolOf, Nat, Sextet1, Sextet2, Sextet3, Sextet4;
    SextetsFit(Nat(x), Nat(y));
    SymbolRoundTrip(Sextet1(Nat(x)));
    SymbolRoundTrip(Sextet2(Nat(x), Nat(y)));
    SymbolRoundTrip(Sextet3(Nat(x), Nat(y)));
    SymbolRoundTrip(Sextet4(Nat(x)));
  }

  lemma {:induction false} EncodeShape(b: seq<bv8>)
    ensures |Encode(b)| % 4 == 0 && ':' !in Encode(b)
  {
    hide First, Second, Third, Fourth;
    if b != [] {
      NoColon(b[0], 0);
      if |b| > 1 { NoColon(b[0], b[1]); NoColon(b[1], 0); }
      if |b| > 2 {
        NoColon(b[1], b[2]);
        NoColon(b[2], 0);
        EncodeShape(b[3..]);
      }
    }
  }

  lemma NotPadding()
    ensures !IsSymbol('=') && Standard('=') == '='
  {}

  lemma {:induction false} GroupsRoundTrip(b: seq<bv8>)
    ensures DecodeGroups(Normalize(Encode(b))) == Some(b)
  {
    hide First, Second, Third, Fourth, IsSymbol, Standard, ByteA, ByteB, ByteC, Clear;
    NotPadding();
    if b == [] {
    } else if |b| == 1 {
      SymbolsBack(b[0], 0, 0);
      ClearTails(b[0]);
      assert b == [b[0]];
    } else if |b| == 2 {
      SymbolsBack(b[0], b[1], 0);
      ClearTails(b[1]);
      assert b == [b[0], b[1]];
    } else {
      GroupsRoundTrip(b[3..]);
      SymbolsBack(b[0], b[1], b[2]);
      var s := Normalize(Encode(b));
      assert s[4..] == Normalize(Encode(b[3..]));
      assert b == [b[0], b[1], b[2]] + b[3..];
    }
  }

  /** Decoding encoded bytes gives the bytes back. */
  lemma RoundTrip(b: seq<bv8>)
    ensures Decode(Encode(b)) == Some(b)
  {
    EncodeShape(b);
    GroupsRoundTrip(b);
  }

  // ----- the alphabet, and the examples of section 10 of RFC 4648 -------------------------------

  lemma CapitalAt(v: nat)
    requires v < 26
    ensures v < 13 ==> SymbolOf(v) == "ABCDEFGHIJKLM"[v]
    ensures v >= 13 ==> SymbolOf(v) == "NOPQRSTUVWXYZ"[v - 13]
  {}

  lemma SmallAt(v: nat)
    requires v < 26
    ensures v < 13 ==> SymbolOf(26 + v) == "abcdefghijklm"[v]
    ensures v >= 13 ==> SymbolOf(26 + v) == "nopqrstuvwxyz"[v - 13]
  {}

  lemma DigitAt(v: nat)
    requires v < 10
    ensures SymbolOf(52 + v) == "0123456789"[v]
    ensures SymbolOf(62) == '-' && SymbolOf(63) == '_'
  {}

  lemma Examples()
    ensures Encode([0x66]) == "Zg==" && Encode([0x66, 0x6f]) == "Zm8=" && Encode([0x66, 0x6f, 0x6f]) == "Zm9v"
    ensures Encode([0x66, 0x6f, 0x6f, 0x62, 0x61, 0x72]) == "Zm9vYmFy"
  {
    hide First, Second, Third, Fourth;
    FooSymbols();
    BarSymbols();
    assert [0x66, 0x6f, 0x6f, 0x62, 0x61, 0x72 as bv8][3..] == [0x62, 0x61, 0x72];
    assert Encode([0x62, 0x61, 0x72]) == "YmFy";
  }

  lemma FooSymbols()
    ensures First(0x66) == 'Z' && Second(0x66, 0) == 'g' && Second(0x66, 0x6f) == 'm'
    ensures Third(0x6f, 0) == '8' && Third(0x6f, 0x6f) == '9' && Fourth(0x6f) == 'v'
  {}

  lemma BarSymbols()
    ensures First(0x62) == 'Y' && Second(0x62, 0x61) == 'm' && Third(0x61, 0x72) == 'F' && Fourth(0x72) == 'y'
  {}

  /** Padding may be left off, and either alphabet is taken. */
  lemma {:induction false} PaddingIsOptional(s: string)
    ensures Decode(s) == Decode(Normalize(s)) && Decode(s) == Decode(PadTo4(s))
  {
    assert Normalize(Normalize(s)) == Normalize(s);
    assert Normalize(PadTo4(s)) == PadTo4(Normalize(s));
  }

  // ----- nothing else decodes ----------------------------------------------------------------

  lemma SextetsBack(v0: nat, v1: nat, v2: nat, v3: nat)
    requires v0 < 64 && v1 < 64 && v2 < 64 && v3 < 64
    ensures Sextet1(Octet1(v0, v1)) == v0 && Sextet2(Octet1(v0, v1), Octet2(v1, v2)) == v1
    ensures Sextet3(Octet2(v1, v2), Octet3(v2, v3)) == v2 && Sextet4(Octet3(v2, v3)) == v3
    ensures v1 % 16 == 0 ==> Sextet2(Octet1(v0, v1), 0) == v1
    ensures v2 % 4 == 0 ==> Sextet3(Octet2(v1, v2), 0) == v2
  {}

  lemma SymbolBack(c: char)
    requires IsSymbol(c)
    ensures Standard(SymbolOf(ValueOf(c))) == c
  {}

  lemma BytesBack(c0: char, c1: char, c2: char, c3: char)
    requires IsSymbol(c0) && IsSymbol(c1) && IsSymbol(c2) && IsSymbol(c3)
    ensures var x, y, z := ByteA(c0, c1), ByteB(c1, c2), ByteC(c2, c3);
            && Standard(First(x)) == c0 && Standard(Second(x, y)) == c1
            && Standard(Third(y, z)) == c2 && Standard(Fourth(z)) == c3
            && (Clear(c1, 16) ==> Standard(Second(x, 0)) == c1)
            && (Clear(c2, 4) ==> Standard(Third(y, 0)) == c2)
  {
    hide SymbolOf, IsSymbol, ValueOf, Nat, Byte, Standard, Sextet1, Sextet2, Sextet3, Sextet4, Octet1, Octet2, Octet3;
    var v0, v1, v2, v3 := ValueOf(c0), ValueOf(c1), ValueOf(c2), ValueOf(c3);
    SextetsBack(v0, v1, v2, v3);
    OctetsFit(v0, v1);
    OctetsFit(v1, v2);
    OctetsFit(v2, v3);
    NatOfByte(Octet1(v0, v1));
    NatOfByte(Octet2(v1, v2));
    NatOfByte(Octet3(v2, v3));
    NatZero();
    SymbolBack(c0);
    SymbolBack(c1);
    SymbolBack(c2);
    SymbolBack(c3);
  }

  /** A group that ends the text, and one that does not. */
  lemma LastGroup(s: string)
    requires |s| == 4 && s[3] == '=' && DecodeGroups(s).Some?
    ensures Normalize(Encode(DecodeGroups(s).value)) == s
  {
    hide First, Second, Third, Fourth, IsSymbol, Standard, ByteA, ByteB, ByteC, Clear;
    NotPadding();
    if s[2] == '=' { BytesBack(s[0], s[1], s[1], s[1]); } else { BytesBack(s[0], s[1], s[2], s[2]); }
  }

  lemma FullDecode(s: string)
    requires s != [] && !(|s| == 4 && s[3] == '=') && DecodeGroups(s).Some?
    ensures |s| >= 4 && IsSymbol(s[0]) && IsSymbol(s[1]) && IsSymbol(s[2]) && IsSymbol(s[3])
    ensures DecodeGroups(s[4..]).Some?
    ensures DecodeGroups(s).value
         == [ByteA(s[0], s[1]), ByteB(s[1], s[2]), ByteC(s[2], s[3])] + DecodeGroups(s[4..]).value
  {
    hide IsSymbol, ByteA, ByteB, ByteC, Clear;
    NotPadding();
  }

  lemma FullEncode(x: bv8, y: bv8, z: bv8, rest: seq<bv8>)
    ensures Normalize(Encode([x, y, z] + rest))
         == [Standard(First(x)), Standard(Second(x, y)), Standard(Third(y, z)), Standard(Fourth(z))]
            + Normalize(Encode(rest))
  {
    hide First, Second, Third, Fourth, Standard;
    assert ([x, y, z] + rest)[3..] == rest;
  }

  /** Groups decode only to bytes whose encoding they are. */
  lemma {:induction false} GroupsAreEncoded(s: string)
    requires DecodeGroups(s).Some?
    ensures Normalize(Encode(DecodeGroups(s).value)) == s
    decreases |s|
  {
    hide Normalize, Encode, DecodeGroups, First, Second, Third, Fourth, IsSymbol, Standard, ByteA, ByteB, ByteC, Clear;
    if s == [] {
      NothingEncoded();
    } else if |s| == 4 && s[3] == '=' {
      LastGroup(s);
    } else {
      FullDecode(s);
      BytesBack(s[0], s[1], s[2], s[3]);
      GroupsAreEncoded(s[4..]);
      FullEncode(ByteA(s[0], s[1]), ByteB(s[1], s[2]), ByteC(s[2], s[3]), DecodeGroups(s[4..]).value);
    }
  }

  lemma NothingEncoded()
    ensures DecodeGroups([]) == Some([]) && Normalize(Encode([])) == []
  {}

  /** A text decodes to bytes exactly when it is their encoding, in either alphabet and with or without padding. */
  lemma DecodesIff(s: string, b: seq<bv8>)
    ensures Decode(s) == Some(b) <==> PadTo4(Normalize(s)) == Normalize(Encode(b))
  {
    hide Normalize, Encode, DecodeGroups, PadTo4;
    GroupsRoundTrip(b);
    if Decode(s) == Some(b) { GroupsAreEncoded(PadTo4(Normalize(s))); }
  }
}
