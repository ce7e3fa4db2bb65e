/**
 * The base64url coding of PKCE verifiers and challenges. Characters outside both
 * base64 alphabets, which `Buffer` skips, make decoding here return `None`.
 */
module Base64Url {
  import opened Wrappers
  import opened Framing

  newtype Sextet = x: int | 0 <= x < 64

  // ---- Regrouping bits ----

  /** The bytes in groups of six bits, the last group filled up with zeros. */
  function Sextets(b: Bytes): (v: seq<Sextet>)
    ensures |v| == (4 * |b| + 2) / 3
  {
    if |b| == 0 then []
    else if |b| == 1 then [(b[0] as int / 4) as Sextet, (b[0] as int % 4 * 16) as Sextet]
    else if |b| == 2 then
      [(b[0] as int / 4) as Sextet, (b[0] as int % 4 * 16 + b[1] as int / 16) as Sextet,
       (b[1] as int % 16 * 4) as Sextet]
    else
      [(b[0] as int / 4) as Sextet, (b[0] as int % 4 * 16 + b[1] as int / 16) as Sextet,
       (b[1] as int % 16 * 4 + b[2] as int / 64) as Sextet, (b[2] as int % 64) as Sextet]
      + Sextets(b[3..])
  }

  /** The whole bytes among the groups; bits left over are dropped. */
  function Octets(v: seq<Sextet>): Bytes {
    if |v| < 2 then []
    else
      var first := (v[0] as int * 4 + v[1] as int / 16) as Byte;
      if |v| == 2 then [first]
      else
        var second := (v[1] as int % 16 * 16 + v[2] as int / 4) as Byte;
        if |v| == 3 then [first, second]
        else [first, second, (v[2] as int % 4 * 64 + v[3] as int) as Byte] + Octets(v[4..])
  }

  /** Every group belongs to a byte, and the bits left over are zero. */
  predicate IsCanonical(v: seq<Sextet>) {
    && |v| % 4 != 1
    && (|v| % 4 == 2 ==> v[|v| - 1] as int % 16 == 0)
    && (|v| % 4 == 3 ==> v[|v| - 1] as int % 4 == 0)
  }

  lemma {:induction false} OctetsOfSextets(b: Bytes)
    ensures Octets(Sextets(b)) == b
  {
    if |b| >= 3 {
      OctetsOfSextets(b[3..]);
      FullGroupOfBytes(b);
    } else if |b| == 1 {
      OneByteIsBack(b[0]);
      assert b == [b[0]];
    } else if |b| == 2 {
      TwoBytesAreBack(b[0], b[1]);
      assert b == [b[0], b[1]];
    }
  }

  lemma OneByteIsBack(x: Byte)
    ensures Octets(Sextets([x])) == [x]
  {
  }

  lemma TwoBytesAreBack(x: Byte, y: Byte)
    ensures Octets(Sextets([x, y])) == [x, y]
  {
  }

  lemma FullGroupOfBytes(b: Bytes)
    requires |b| >= 3 && Octets(Sextets(b[3..])) == b[3..]
    ensures Octets(Sextets(b)) == b
  {
    LaterGroups(b);
    FirstGroupIsBack(b);
    FirstThree(b);
  }

  lemma LaterGroups(b: Bytes)
    requires |b| >= 3
    ensures |Sextets(b)| >= 4 && Sextets(b)[4..] == Sextets(b[3..])
  {
  }

  lemma FirstThree(b: Bytes)
    requires |b| >= 3
    ensures b == [b[0], b[1], b[2]] + b[3..]
  {
  }

  lemma FirstGroupIsBack(b: Bytes)
    requires |b| >= 3
    ensures Octets(Sextets(b)) == [b[0], b[1], b[2]] + Octets(Sextets(b)[4..])
  {
    FirstGroup(b);
    GroupGivesBytes(Sextets(b), b[0], b[1], b[2]);
  }

  lemma GroupGivesBytes(v: seq<Sextet>, x: Byte, y: Byte, z: Byte)
    requires IsFirstGroup(v, x, y, z)
    ensures Octets(v) == [x, y, z] + Octets(v[4..])
  {
    GroupIsBack(x as int, y as int, z as int, v[0] as int, v[1] as int, v[2] as int, v[3] as int);
    var x', y', z' := OctetsOfGroup(v);
  }

  predicate IsFirstGroup(v: seq<Sextet>, x: Byte, y: Byte, z: Byte) {
    && |v| >= 4
    && v[0] as int == x as int / 4 && v[1] as int == x as int % 4 * 16 + y as int / 16
    && v[2] as int == y as int % 16 * 4 + z as int / 64 && v[3] as int == z as int % 64
  }

  lemma FirstGroup(b: Bytes)
    requires |b| >= 3
    ensures IsFirstGroup(Sextets(b), b[0], b[1], b[2])
  {
  }

  lemma GroupIsBack(x: int, y: int, z: int, a: int, b: int, c: int, d: int)
    requires 0 <= x < 256 && 0 <= y < 256 && 0 <= z < 256
    requires a == x / 4 && b == x % 4 * 16 + y / 16 && c == y % 16 * 4 + z / 64 && d == z % 64
    ensures a * 4 + b / 16 == x && b % 16 * 16 + c / 4 == y && c % 4 * 64 + d == z
  {
  }

  lemma OctetsOfGroup(v: seq<Sextet>) returns (x: Byte, y: Byte, z: Byte)
    requires |v| >= 4
    ensures Octets(v) == [x, y, z] + Octets(v[4..])
    ensures x as int == v[0] as int * 4 + v[1] as int / 16
    ensures y as int == v[1] as int % 16 * 16 + v[2] as int / 4
    ensures z as int == v[2] as int % 4 * 64 + v[3] as int
  {
    x := (v[0] as int * 4 + v[1] as int / 16) as Byte;
    y := (v[1] as int % 16 * 16 + v[2] as int / 4) as Byte;
    z := (v[2] as int % 4 * 64 + v[3] as int) as Byte;
  }

  lemma SextetsOfGroup(x: Byte, y: Byte, z: Byte, rest: Bytes, a: Sextet, b: Sextet, c: Sextet, d: Sextet)
    requires x as int / 4 == a as int && x as int % 4 * 16 + y as int / 16 == b as int
    requires y as int % 16 * 4 + z as int / 64 == c as int && z as int % 64 == d as int
    ensures Sextets([x, y, z] + rest) == [a, b, c, d] + Sextets(rest)
  {
    assert ([x, y, z] + rest)[3..] == rest;
  }

  lemma FirstFour(v: seq<Sextet>)
    requires |v| >= 4
    ensures v[..4] == [v[0], v[1], v[2], v[3]]
  {
  }

  lemma CanonicalTail(v: seq<Sextet>)
    requires |v| >= 4
    ensures IsCanonical(v) <==> IsCanonical(v[4..])
  {
    assert |v| % 4 == (|v| - 4) % 4;
  }

  lemma FullGroupIsBack(v: seq<Sextet>)
    requires |v| >= 4
    ensures Sextets(Octets(v)) == v[..4] + Sextets(Octets(v[4..]))
  {
    FirstFour(v);
    var x, y, z := OctetsOfGroup(v);
    SextetsOfGroup(x, y, z, Octets(v[4..]), v[0], v[1], v[2], v[3]);
  }

  lemma TwoAreBack(a: Sextet, b: Sextet)
    ensures Sextets(Octets([a, b])) == [a, b] <==> b as int % 16 == 0
  {
    var x := (a as int * 4 + b as int / 16) as Byte;
    assert Octets([a, b]) == [x];
    assert Sextets([x]) == [a, (x as int % 4 * 16) as Sextet];
  }

  lemma ThreeAreBack(a: Sextet, b: Sextet, c: Sextet)
    ensures Sextets(Octets([a, b, c])) == [a, b, c] <==> c as int % 4 == 0
  {
    var x := (a as int * 4 + b as int / 16) as Byte;
    var y := (b as int % 16 * 16 + c as int / 4) as Byte;
    assert Octets([a, b, c]) == [x, y];
    SextetsOfTwo(x, y, a, b, (c as int / 4 * 4) as Sextet);
  }

  lemma SextetsOfTwo(x: Byte, y: Byte, a: Sextet, b: Sextet, c: Sextet)
    requires x as int / 4 == a as int && x as int % 4 * 16 + y as int / 16 == b as int
    requires y as int % 16 * 4 == c as int
    ensures Sextets([x, y]) == [a, b, c]
  {
  }

  lemma {:induction false} SextetsOfOctets(v: seq<Sextet>)
    ensures Sextets(Octets(v)) == v <==> IsCanonical(v)
  {
    if |v| == 2 {
      assert v == [v[0], v[1]];
      TwoAreBack(v[0], v[1]);
    } else if |v| == 3 {
      assert v == [v[0], v[1], v[2]];
      ThreeAreBack(v[0], v[1], v[2]);
    } else if |v| >= 4 {
      CanonicalTail(v);
      FullGroupIsBack(v);
      SextetsOfOctets(v[4..]);
      SplitOff(v, Sextets(Octets(v[4..])));
    }
  }

  lemma SplitOff(v: seq<Sextet>, tail: seq<Sextet>)
    requires |v| >= 4
    ensures v[..4] + tail == v <==> tail == v[4..]
  {
    assert v == v[..4] + v[4..];
    assert (v[..4] + tail)[4..] == tail;
  }

  // ---- Alphabets ----

  /** The alphabet of section 4 of RFC 4648. */
  function Symbol(x: Sextet): (c: char)
    ensures c != '=' && c != '-' && c != '_'
  {
    if x < 26 then 'A' + x as char
    else if x < 52 then 'a' + (x - 26) as char
    else if x < 62 then '0' + (x - 52) as char
    else if x == 62 then '+'
    else '/'
  }

  function Value(c: char): Option<Sextet> {
    if 'A' <= c <= 'Z' then Some((c - 'A') as Sextet)
    else if 'a' <= c <= 'z' then Some((c - 'a') as Sextet + 26)
    else if '0' <= c <= '9' then Some((c - '0') as Sextet + 52)
    else if c == '+' then Some(62)
    else if c == '/' then Some(63)
    else None
  }

  /** The URL-safe alphabet of section 5 of RFC 4648. */
  predicate IsUrlSafe(c: char) {
    'A' <= c <= 'Z' || 'a' <= c <= 'z' || '0' <= c <= '9' || c == '-' || c == '_'
  }

  function Symbols(v: seq<Sextet>): (s: string)
    ensures |s| == |v| && forall i :: 0 <= i < |v| ==> s[i] == Symbol(v[i])
  {
    seq(|v|, i requires 0 <= i < |v| => Symbol(v[i]))
  }

  function Padding(n: nat): (s: string)
    ensures |s| == n && forall i :: 0 <= i < n ==> s[i] == '='
  {
    seq(n, _ => '=')
  }

  /** `Buffer.toString("base64")`. */
  function ToBase64(b: Bytes): string {
    var s := Symbols(Sextets(b));
    s + Padding((4 - |s| % 4) % 4)
  }

  /** `replace` of every occurrence of a character. */
  function ReplaceAll(s: string, from: char, to: char): (r: string)
    ensures |r| == |s| && forall i :: 0 <= i < |s| ==> r[i] == if s[i] == from then to else s[i]
  {
    seq(|s|, i requires 0 <= i < |s| => if s[i] == from then to else s[i])
  }

  /** `replace(/=+$/, "")`. */
  function WithoutPadding(s: string): string {
    if s != "" && s[|s| - 1] == '=' then WithoutPadding(s[..|s| - 1]) else s
  }

  function Encode(b: Bytes): string {
    WithoutPadding(ReplaceAll(ReplaceAll(ToBase64(b), '+', '-'), '/', '_'))
  }

  // ---- Decoding ----

  /** `Buffer.from(s, "base64")`: up to the first `=`. */
  function FromBase64(s: string): Option<Bytes> {
    match Values(s)
    case None => None
    case Some(v) => Some(Octets(v))
  }

  function Values(s: string): Option<seq<Sextet>> {
    if s == "" || s[0] == '=' then Some([])
    else if Value(s[0]).None? || Values(s[1..]).None? then None
    else Some([Value(s[0]).value] + Values(s[1..]).value)
  }

  function Padded(s: string): string {
    s + Padding((4 - |s| % 4) % 4)
  }

  function Decoded(s: string): Option<Bytes> {
    FromBase64(ReplaceAll(ReplaceAll(Padded(s), '-', '+'), '_', '/'))
  }

  method Decode(encoded: string) returns (r: Option<Bytes>)
    ensures r == Decoded(encoded)
  {
    var padded := encoded;
    while |padded| % 4 != 0
      invariant |encoded| <= |padded| <= |Padded(encoded)|
      invariant padded == encoded + Padding(|padded| - |encoded|)
      decreases |Padded(encoded)| - |padded|
    {
      padded := padded + "=";
    }
    assert padded == Padded(encoded);
    padded := ReplaceAll(ReplaceAll(padded, '-', '+'), '_', '/');
    r := FromBase64(padded);
  }

  // ---- What the two functions amount to ----

  /** The URL-safe character of a group. */
  function UrlSymbol(x: Sextet): (c: char)
    ensures IsUrlSafe(c)
  {
    if x == 62 then '-' else if x == 63 then '_' else Symbol(x)
  }

  function UrlSymbols(v: seq<Sextet>): (s: string)
    ensures |s| == |v| && forall i :: 0 <= i < |v| ==> s[i] == UrlSymbol(v[i])
  {
    seq(|v|, i requires 0 <= i < |v| => UrlSymbol(v[i]))
  }

  lemma {:induction false} PaddingIsStripped(s: string, n: nat)
    requires s == "" || s[|s| - 1] != '='
    ensures WithoutPadding(s + Padding(n)) == s
  {
    if n == 0 {
      assert s + Padding(0) == s;
    } else {
      assert (s + Padding(n))[..|s| + n - 1] == s + Padding(n - 1);
      PaddingIsStripped(s, n - 1);
    }
  }

  lemma EncodeIsUrlSymbols(b: Bytes)
    ensures Encode(b) == UrlSymbols(Sextets(b))
  {
    var v := Sextets(b);
    var n := (4 - |v| % 4) % 4;
    var replaced := ReplaceAll(ReplaceAll(ToBase64(b), '+', '-'), '/', '_');
    forall i | 0 <= i < |v| ensures replaced[i] == UrlSymbol(v[i]) {
      SymbolIsSpecial(v[i]);
    }
    assert replaced == UrlSymbols(v) + Padding(n);
    PaddingIsStripped(UrlSymbols(v), n);
  }

  lemma SymbolIsSpecial(x: Sextet)
    ensures (Symbol(x) == '+' <==> x == 62) && (Symbol(x) == '/' <==> x == 63)
  {
  }

  /** URL-safe text decodes to the bytes of its groups. */
  lemma DecodeUrlSymbols(v: seq<Sextet>)
    ensures Decoded(UrlSymbols(v)) == Some(Octets(v))
  {
    var s := UrlSymbols(v);
    var n := (4 - |s| % 4) % 4;
    var replaced := ReplaceAll(ReplaceAll(Padded(s), '-', '+'), '_', '/');
    forall i | 0 <= i < |v| ensures replaced[i] == Symbol(v[i]) {
      SymbolIsSpecial(v[i]);
    }
    assert replaced == Symbols(v) + Padding(n);
    ValuesOfSymbols(v, n);
  }

  lemma {:induction false} ValuesOfSymbols(v: seq<Sextet>, n: nat)
    ensures Values(Symbols(v) + Padding(n)) == Some(v)
  {
    var s := Symbols(v) + Padding(n);
    if v == [] {
      assert s == "" || s[0] == '=';
    } else {
      assert (Symbols(v) + Padding(n))[1..] == Symbols(v[1..]) + Padding(n);
      ValuesOfSymbols(v[1..], n);
      assert s[0] == Symbol(v[0]);
      assert v == [v[0]] + v[1..];
    }
  }

  // ---- The encoding, from the bits and the printed alphabet ----

  const UPPER := "ABCDEFGHIJKLMNOPQRSTUVWXYZ"
  const LOWER := "abcdefghijklmnopqrstuvwxyz"
  const DIGITS := "0123456789"
  const URL_ALPHABET := UPPER + LOWER + DIGITS + "-_"

  function ByteAt(b: Bytes, k: nat): (x: int)
    ensures 0 <= x < 256
  {
    if k < |b| then b[k] as int else 0
  }

  /** The number that the six bits from bit `6 * i` on form; bits past the end are zero. */
  function SixBits(b: Bytes, i: nat): (x: int)
    ensures 0 <= x < 64
  {
    var k := 6 * i / 8;
    (ByteAt(b, k) * 256 + ByteAt(b, k + 1)) / [1024, 256, 64, 16][6 * i % 8 / 2] % 64
  }

  /** The bits that are the high six of the first byte, or span both, or are the low six of it. */
  lemma HighSix(x: int, y: int)
    requires 0 <= x < 256 && 0 <= y < 256
    ensures (x * 256 + y) / 1024 % 64 == x / 4
  {
    assert x * 256 + y == x / 4 * 1024 + (x % 4 * 256 + y);
  }

  lemma TwoAndFour(x: int, y: int)
    requires 0 <= x < 256 && 0 <= y < 256
    ensures (x * 256 + y) / 16 % 64 == x % 4 * 16 + y / 16
  {
    assert x * 256 + y == (x / 4 * 64 + (x % 4 * 16 + y / 16)) * 16 + y % 16;
  }

  lemma FourAndTwo(x: int, y: int)
    requires 0 <= x < 256 && 0 <= y < 256
    ensures (x * 256 + y) / 64 % 64 == x % 16 * 4 + y / 64
  {
    assert x * 256 + y == (x / 16 * 64 + (x % 16 * 4 + y / 64)) * 64 + y % 64;
  }

  lemma LowSix(x: int, y: int)
    requires 0 <= x < 256 && 0 <= y < 256
    ensures (x * 256 + y) / 256 % 64 == x % 64
  {
  }

  lemma FirstSixBits(b: Bytes, i: nat)
    requires i < 4 && i < |Sextets(b)|
    ensures Sextets(b)[i] as int == SixBits(b, i)
  {
    HighSix(ByteAt(b, 0), ByteAt(b, 1));
    TwoAndFour(ByteAt(b, 0), ByteAt(b, 1));
    FourAndTwo(ByteAt(b, 1), ByteAt(b, 2));
    LowSix(ByteAt(b, 2), ByteAt(b, 3));
  }

  lemma LaterSixBits(b: Bytes, i: nat)
    requires i >= 4 && |b| >= 3
    ensures SixBits(b, i) == SixBits(b[3..], i - 4)
  {
    var k := 6 * (i - 4) / 8;
    assert 6 * i / 8 == k + 3 && 6 * i % 8 == 6 * (i - 4) % 8;
    assert ByteAt(b, k + 3) == ByteAt(b[3..], k) && ByteAt(b, k + 4) == ByteAt(b[3..], k + 1);
  }

  lemma {:induction false} SextetIsSixBits(b: Bytes, i: nat)
    requires i < |Sextets(b)|
    ensures Sextets(b)[i] as int == SixBits(b, i)
  {
    if i < 4 {
      FirstSixBits(b, i);
    } else {
      LaterGroups(b);
      SextetIsSixBits(b[3..], i - 4);
      LaterSixBits(b, i);
      assert Sextets(b)[i] == Sextets(b)[4..][i - 4];
    }
  }

  lemma UpperAt(x: nat)
    requires x < 26
    ensures UPPER[x] as int == 'A' as int + x && LOWER[x] as int == 'a' as int + x
  {
    assert UPPER[..13] == "ABCDEFGHIJKLM" && LOWER[..13] == "abcdefghijklm";
  }

  lemma DigitAt(x: nat)
    requires x < 10
    ensures DIGITS[x] as int == '0' as int + x
  {
  }

  lemma AlphabetAt(x: Sextet)
    ensures |URL_ALPHABET| == 64 && URL_ALPHABET[x] == UrlSymbol(x)
  {
    if x < 26 {
      UpperAt(x as nat);
    } else if x < 52 {
      UpperAt(x as nat - 26);
    } else if x < 62 {
      DigitAt(x as nat - 52);
    }
  }

  /** Character `i` of the encoding stands in the alphabet at the number its six bits form. */
  lemma EncodedIsAlphabetAtBits(b: Bytes, i: nat)
    requires i < |Encode(b)|
    ensures Encode(b)[i] == URL_ALPHABET[SixBits(b, i)]
  {
    EncodeIsUrlSymbols(b);
    SextetIsSixBits(b, i);
    AlphabetAt(Sextets(b)[i]);
  }

  // ---- Main results ----

  /** Decoding undoes encoding, for every byte string. */
  lemma RoundTrip(b: Bytes)
    ensures Decoded(Encode(b)) == Some(b)
  {
    EncodeIsUrlSymbols(b);
    DecodeUrlSymbols(Sextets(b));
    OctetsOfSextets(b);
  }

  /**
   * The encoding uses only the URL-safe alphabet and has ceil(4n/3) characters:
   * 43 for the 32 bytes of section 4.1 of RFC 7636.
   */
  lemma EncodingShape(b: Bytes)
    ensures |Encode(b)| == (4 * |b| + 2) / 3 && forall c :: c in Encode(b) ==> IsUrlSafe(c)
    ensures |b| == 32 ==> |Encode(b)| == 43
  {
    EncodeIsUrlSymbols(b);
  }

  function UrlValue(c: char): (x: Sextet)
    requires IsUrlSafe(c)
    ensures UrlSymbol(x) == c
  {
    if c == '-' then 62 else if c == '_' then 63 else Value(c).value
  }

  function UrlValues(s: string): (v: seq<Sextet>)
    requires forall c :: c in s ==> IsUrlSafe(c)
    ensures |v| == |s| && UrlSymbols(v) == s
  {
    seq(|s|, i requires 0 <= i < |s| => UrlValue(s[i]))
  }

  /**
   * URL-safe text always decodes, and encoding the bytes gives the text back exactly
   * when it is canonical: no lone last character, and zero bits after the last byte.
   */
  lemma {:induction false} ReencodingIff(s: string)
    requires forall c :: c in s ==> IsUrlSafe(c)
    ensures Decoded(s).Some? && (Encode(Decoded(s).value) == s <==> IsCanonical(UrlValues(s)))
  {
    var v := UrlValues(s);
    DecodeUrlSymbols(v);
    EncodeIsUrlSymbols(Octets(v));
    SextetsOfOctets(v);
    if UrlSymbols(Sextets(Octets(v))) == s {
      UrlSymbolsAreDistinct(Sextets(Octets(v)), v);
    }
  }

  lemma UrlSymbolsAreDistinct(v: seq<Sextet>, w: seq<Sextet>)
    requires UrlSymbols(v) == UrlSymbols(w)
    ensures v == w
  {
    assert |UrlSymbols(v)| == |v| && |UrlSymbols(w)| == |w|;
    forall i | 0 <= i < |v| ensures v[i] == w[i] {
      assert UrlSymbols(v)[i] == UrlSymbols(w)[i];
      SymbolIsSpecial(v[i]);
      SymbolIsSpecial(w[i]);
    }
  }
}
