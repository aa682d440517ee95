/** The two digests of app/logic/utils.py: an integer folded from the hexadecimal SHA-256
    digest of a text (deck identifiers), and the first ten characters of its URL-safe base64
    encoding (section 5 of RFC 4648). SHA-256 itself (FIPS 180-4) is a parameter: any function
    from a text to 32 bytes. */
module Hashing {
  import opened Results

  type Byte = b: int | 0 <= b < 256

  /** A SHA-256 digest. */
  type Digest = d: seq<Byte> | |d| == 32 witness seq(32, _ => 0)

  // ---------------------------------------------------------------------------------------
  // Hexadecimal

  /** The lower-case hexadecimal digit of n, as hexdigest() writes it. */
  function HexChar(n: int): (c: char)
    requires 0 <= n < 16
  {
    if n < 10 then '0' + n as char else 'a' + (n - 10) as char
  }

  /** The value of a hexadecimal digit in either case, as int(_, 16) reads it. */
  function HexValue(c: char): Option<int> {
    if '0' <= c <= '9' then Some(c as int - '0' as int)
    else if 'a' <= c <= 'f' then Some(c as int - 'a' as int + 10)
    else if 'A' <= c <= 'F' then Some(c as int - 'A' as int + 10)
    else None
  }

  /** The two digits of a byte. */
  function HexPair(b: Byte): (s: string) {
    [HexChar(b / 16), HexChar(b % 16)]
  }

  /** hexdigest(): two lower-case digits per byte, most significant first. */
  function HexDigest(d: seq<Byte>): (h: string)
    ensures |h| == 2 * |d|
  {
    if d == [] then [] else HexDigest(d[..|d| - 1]) + HexPair(d[|d| - 1])
  }

  /** int(s, 16) on a two-character string of hexadecimal digits: always a byte. */
  function ParseHexPair(s: string): (r: Option<Byte>)
    ensures r.Some? ==> |s| == 2 && HexValue(s[0]).Some? && HexValue(s[1]).Some?
    ensures |s| == 2 && HexValue(s[0]).Some? && HexValue(s[1]).Some? ==> r.Some?
  {
    if |s| == 2 && HexValue(s[0]).Some? && HexValue(s[1]).Some? then
      Some(16 * HexValue(s[0]).value + HexValue(s[1]).value)
    else None
  }

  /** Decoding the two digits of a byte gives the byte back. */
  lemma ParseHexPairRoundTrip(b: Byte)
    ensures ParseHexPair(HexPair(b)) == Some(b)
  {
    var hi, lo := b / 16, b % 16;
    assert HexValue(HexChar(hi)) == Some(hi);
    assert HexValue(HexChar(lo)) == Some(lo);
  }

  /** Digits 2j and 2j + 1 of the hex digest are the digits of byte j. */
  lemma {:induction false} HexDigestAt(d: seq<Byte>, j: nat)
    requires j < |d|
    ensures HexDigest(d)[2 * j..2 * j + 2] == HexPair(d[j])
  {
    var p := d[..|d| - 1];
    assert HexDigest(d) == HexDigest(p) + HexPair(d[|d| - 1]);
    if j < |d| - 1 {
      HexDigestAt(p, j);
      assert HexDigest(d)[2 * j..2 * j + 2] == HexDigest(p)[2 * j..2 * j + 2];
    } else {
      assert HexDigest(d)[2 * j..2 * j + 2] == HexDigest(d)[|HexDigest(p)|..];
    }
  }

  /** The first 2n hexadecimal digits are those of the first n bytes, and only those. */
  lemma {:induction false} HexDigestPrefix(d: seq<Byte>, n: nat)
    requires n <= |d|
    ensures HexDigest(d)[..2 * n] == HexDigest(d[..n])
    decreases |d|
  {
    if n < |d| {
      var p := d[..|d| - 1];
      assert HexDigest(d) == HexDigest(p) + HexPair(d[|d| - 1]);
      HexDigestPrefix(p, n);
      assert p[..n] == d[..n];
      assert HexDigest(d)[..2 * n] == HexDigest(p)[..2 * n];
    } else {
      assert d[..n] == d;
    }
  }

  // ---------------------------------------------------------------------------------------
  // generate_integer_hash

  /** Bit j of b. */
  function BitAt(b: nat, j: nat): (r: nat)
    ensures r <= 1
  {
    if j == 0 then b % 2 else BitAt(b / 2, j - 1)
  }

  /** 1 << ((3 - k) * 8): the weight of bit k. */
  function Weight(k: nat): nat
    requires k < 4
  {
    if k == 0 then 0x100_0000 else if k == 1 then 0x1_0000 else if k == 2 then 0x100 else 1
  }

  /** What the inner loop adds for the byte b, shifted right k times so far. */
  function Contribution(b: nat, k: nat): nat
    requires k <= 4
    decreases 4 - k
  {
    if k == 4 then 0 else (if b % 2 == 1 then Weight(k) else 0) + Contribution(b / 2, k + 1)
  }

  /** What the outer loop has accumulated after the bytes bs. */
  function Fold(bs: seq<Byte>): nat {
    if bs == [] then 0 else Fold(bs[..|bs| - 1]) + Contribution(bs[|bs| - 1], 0)
  }

  /** The hash of a digest: the fold over its first 20 bytes (40 hexadecimal digits). */
  function IntegerHashOf(d: Digest): nat {
    Fold(d[..20])
  }

  /** Digits 2j and 2j + 1 of the hex digest decode to byte j. */
  lemma HexByteAt(d: seq<Byte>, j: nat)
    requires j < |d|
    ensures ParseHexPair(HexDigest(d)[2 * j..2 * j + 2]) == Some(d[j])
  {
    HexDigestAt(d, j);
    ParseHexPairRoundTrip(d[j]);
  }

  lemma FoldSnoc(d: seq<Byte>, j: nat)
    requires j < |d|
    ensures Fold(d[..j + 1]) == Fold(d[..j]) + Contribution(d[j], 0)
  {
    assert d[..j + 1][..j] == d[..j];
  }

  /** generate_integer_hash: the nested loops over the hexadecimal digest. */
  method GenerateIntegerHash(sha256: string -> Digest, text: string) returns (hashValue: int)
    ensures hashValue == IntegerHashOf(sha256(text))
  {
    var d := sha256(text);
    var hex := HexDigest(d);
    hashValue := 0;
    var i := 0;
    ghost var j := 0;
    while i < 40
      invariant 0 <= j <= 20 && i == 2 * j
      invariant hashValue == Fold(d[..j])
    {
      HexByteAt(d, j);
      var byte := ParseHexPair(hex[i..i + 2]).value;
      var b: nat := byte;
      var k := 0;
      while k < 4
        invariant 0 <= k <= 4
        invariant hashValue + Contribution(b, k) == Fold(d[..j]) + Contribution(byte, 0)
      {
        if b % 2 == 1 {
          hashValue := hashValue + Weight(k);
        }
        b := b / 2;
        k := k + 1;
      }
      FoldSnoc(d, j);
      i, j := i + 2, j + 1;
    }
  }

  /** How many of the bytes have bit j set. */
  function CountBit(bs: seq<Byte>, j: nat): (c: nat)
    ensures c <= |bs|
  {
    if bs == [] then 0 else CountBit(bs[..|bs| - 1], j) + BitAt(bs[|bs| - 1], j)
  }

  lemma ContributionBits(b: Byte)
    ensures Contribution(b, 0) ==
      BitAt(b, 0) * 0x100_0000 + BitAt(b, 1) * 0x1_0000 + BitAt(b, 2) * 0x100 + BitAt(b, 3)
  {
    var b1, b2, b3 := b / 2, b / 2 / 2, b / 2 / 2 / 2;
    assert Contribution(b3, 3) == BitAt(b3, 0);
    assert Contribution(b2, 2) == BitAt(b2, 0) * 0x100 + Contribution(b3, 3);
    assert Contribution(b1, 1) == BitAt(b1, 0) * 0x1_0000 + Contribution(b2, 2);
    assert Contribution(b, 0) == BitAt(b, 0) * 0x100_0000 + Contribution(b1, 1);
    assert BitAt(b, 1) == BitAt(b1, 0);
    assert BitAt(b, 2) == BitAt(b1, 1) == BitAt(b2, 0);
    assert BitAt(b, 3) == BitAt(b1, 2) == BitAt(b2, 1) == BitAt(b3, 0);
  }

  /** The fold counts bits: c0 * 2^24 + c1 * 2^16 + c2 * 2^8 + c3, where cj is the number of
      bytes with bit j set. */
  lemma {:induction false} FoldCountsBits(bs: seq<Byte>)
    ensures Fold(bs) ==
      CountBit(bs, 0) * 0x100_0000 + CountBit(bs, 1) * 0x1_0000 + CountBit(bs, 2) * 0x100 + CountBit(bs, 3)
  {
    if bs != [] {
      FoldCountsBits(bs[..|bs| - 1]);
      ContributionBits(bs[|bs| - 1]);
    }
  }

  /** The hash is at most 20 * (2^24 + 2^16 + 2^8 + 1) = 336860180, which is below 2^31, and it
      depends only on the first 20 bytes of the digest. */
  lemma IntegerHashBounds(d: Digest, d': Digest)
    ensures 0 <= IntegerHashOf(d) <= 336860180 < 0x8000_0000
    ensures d[..20] == d'[..20] ==> IntegerHashOf(d) == IntegerHashOf(d')
  {
    FoldCountsBits(d[..20]);
  }

  // ---------------------------------------------------------------------------------------
  // generate_string_hash

  /** The URL-safe base64 alphabet (Table 2 of RFC 4648): A-Z, a-z, 0-9, '-', '_'. */
  function UrlChar(v: int): (c: char)
    requires 0 <= v < 64
    ensures IsUrlChar(c)
  {
    if v < 26 then 'A' + v as char
    else if v < 52 then 'a' + (v - 26) as char
    else if v < 62 then '0' + (v - 52) as char
    else if v == 62 then '-' else '_'
  }

  predicate IsUrlChar(c: char) {
    'A' <= c <= 'Z' || 'a' <= c <= 'z' || '0' <= c <= '9' || c == '-' || c == '_'
  }

  /** The value of an alphabet character. */
  function UrlValue(c: char): (v: int)
    requires IsUrlChar(c)
    ensures 0 <= v < 64
  {
    if 'A' <= c <= 'Z' then c as int - 'A' as int
    else if 'a' <= c <= 'z' then c as int - 'a' as int + 26
    else if '0' <= c <= '9' then c as int - '0' as int + 52
    else if c == '-' then 62 else 63
  }

  /** Three bytes as four characters of six bits each, most significant first. */
  function EncodeGroup(a: Byte, b: Byte, c: Byte): (s: string)
    ensures |s| == 4 && forall k :: 0 <= k < 4 ==> IsUrlChar(s[k])
  {
    [UrlChar(a / 4), UrlChar(a % 4 * 16 + b / 16), UrlChar(b % 16 * 4 + c / 64), UrlChar(c % 64)]
  }

  /** urlsafe_b64encode: groups of three bytes, then the padded final group. */
  function Base64Url(bs: seq<Byte>): (s: string)
    ensures |s| >= |bs|
    decreases |bs|
  {
    if |bs| >= 3 then EncodeGroup(bs[0], bs[1], bs[2]) + Base64Url(bs[3..])
    else if |bs| == 2 then EncodeGroup(bs[0], bs[1], 0)[..3] + "="
    else if |bs| == 1 then EncodeGroup(bs[0], 0, 0)[..2] + "=="
    else ""
  }

  /** Four characters of a group back to its three bytes. */
  function DecodeGroup(s: string): seq<int>
    requires |s| == 4 && forall k :: 0 <= k < 4 ==> IsUrlChar(s[k])
  {
    var v0, v1, v2, v3 := UrlValue(s[0]), UrlValue(s[1]), UrlValue(s[2]), UrlValue(s[3]);
    [v0 * 4 + v1 / 16, v1 % 16 * 16 + v2 / 4, v2 % 4 * 64 + v3]
  }

  lemma UrlValueOfChar(v: int)
    requires 0 <= v < 64
    ensures UrlValue(UrlChar(v)) == v
  {
  }

  /** Decoding a group gives its bytes back. */
  lemma GroupRoundTrip(a: Byte, b: Byte, c: Byte)
    ensures DecodeGroup(EncodeGroup(a, b, c)) == [a, b, c]
  {
    var v0, v1, v2, v3 := a / 4, a % 4 * 16 + b / 16, b % 16 * 4 + c / 64, c % 64;
    UrlValueOfChar(v0);
    UrlValueOfChar(v1);
    UrlValueOfChar(v2);
    UrlValueOfChar(v3);
    assert v1 / 16 == a % 4 && v1 % 16 == b / 16;
    assert v2 / 4 == b % 16 && v2 % 4 == c / 64;
  }

  /** generate_string_hash: the first ten characters of the encoded digest. */
  function GenerateStringHash(sha256: string -> Digest, text: string): (h: string)
    ensures |h| == 10
  {
    Base64Url(sha256(text))[..10]
  }

  /** The first ten characters come from the first three groups, the last two of them from
      the first two characters of the third group. */
  lemma Base64UrlHead(d: Digest)
    ensures Base64Url(d)[..10] ==
      EncodeGroup(d[0], d[1], d[2]) + EncodeGroup(d[3], d[4], d[5]) + EncodeGroup(d[6], d[7], d[8])[..2]
  {
    var r1 := d[3..];
    var r2 := r1[3..];
    var g0, g1, g2 := EncodeGroup(d[0], d[1], d[2]), EncodeGroup(d[3], d[4], d[5]), EncodeGroup(d[6], d[7], d[8]);
    assert Base64Url(d) == g0 + Base64Url(r1);
    assert Base64Url(r1) == g1 + Base64Url(r2);
    assert Base64Url(r2) == g2 + Base64Url(r2[3..]);
    PrefixOfConcat(g2, Base64Url(r2[3..]), 2);
    PrefixOfConcat(g1, Base64Url(r2), 6);
    PrefixOfConcat(g0, Base64Url(r1), 10);
  }

  lemma PrefixOfConcat(x: string, y: string, n: nat)
    requires n <= |x| + |y|
    ensures |x| <= n ==> (x + y)[..n] == x + y[..n - |x|]
    ensures n <= |x| ==> (x + y)[..n] == x[..n]
  {
  }

  /** The first two characters of a group depend only on its first two bytes. */
  lemma EncodeGroupHead(a: Byte, b: Byte, c: Byte, c': Byte)
    ensures EncodeGroup(a, b, c)[..2] == EncodeGroup(a, b, c')[..2]
  {
  }

  /** The string hash has ten characters of the URL-safe alphabet, so no padding. */
  lemma StringHashAlphabet(sha256: string -> Digest, text: string)
    ensures forall k :: 0 <= k < 10 ==> IsUrlChar(GenerateStringHash(sha256, text)[k])
  {
    Base64UrlHead(sha256(text));
  }

  /** The string hash depends only on the first eight bytes of the digest. */
  lemma StringHashPrefix(sha256: string -> Digest, text: string, text': string)
    requires sha256(text)[..8] == sha256(text')[..8]
    ensures GenerateStringHash(sha256, text) == GenerateStringHash(sha256, text')
  {
    var d, d' := sha256(text), sha256(text');
    Base64UrlHead(d);
    Base64UrlHead(d');
    assert forall k :: 0 <= k < 8 ==> d[k] == d[..8][k] == d'[k];
    EncodeGroupHead(d[6], d[7], d[8], d'[8]);
  }
}
