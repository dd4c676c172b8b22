/**
 * Name-based identifiers (`generateUUID`): a SHA-1 digest of the fixed
 * namespace text followed by the name, with the version nibble and the
 * variant bits stamped into bytes 6 and 8 as RFC 4122 lays them out
 * (sections 4.1.1 and 4.1.3), printed as 8-4-4-4-12 upper-case hex.
 *
 * The hash itself is foreign code: it enters as a parameter `sha1` mapping
 * the text to its twenty-byte digest (the UTF-8 encoding folded in).
 */
module Uuid {
  import opened Text

  type byte = bv8

  /** A SHA-1 digest: twenty bytes. */
  type Digest = s: seq<byte> | |s| == 20 witness seq(20, _ => 0)

  /** The namespace text that is hashed in front of every name. It is hashed
      as text, not as the sixteen bytes of the UUID it spells. */
  const Namespace: string := "91937497-7597-4598-8454-6019558546E6"

  /** Byte 6 after `(b & 0x0f) | 0x50`: version 5 in the high nibble. */
  function VersionByte(b: byte): byte {
    (b & 0x0F) | 0x50
  }

  /** Byte 8 after `(b & 0x3f) | 0x80`: variant bits `10`. */
  function VariantByte(b: byte): byte {
    (b & 0x3F) | 0x80
  }

  /** The digest bytes once the version and the variant are stamped in:
      only the top four bits of byte 6 and the top two bits of byte 8 are
      replaced, every other bit is the digest's. */
  function Stamp(d: seq<byte>): (r: seq<byte>)
    requires |d| > 8
    ensures |r| == |d|
    ensures forall i | 0 <= i < |d| && i != 6 && i != 8 :: r[i] == d[i]
    ensures r[6] & 0x0F == d[6] & 0x0F && r[6] & 0xF0 == 0x50
    ensures r[8] & 0x3F == d[8] & 0x3F && r[8] & 0xC0 == 0x80
  {
    d[6 := VersionByte(d[6])][8 := VariantByte(d[8])]
  }

  function LowerHexDigit(n: nat): char
    requires n < 16
  {
    "0123456789abcdef"[n]
  }

  function UpperHexDigit(n: nat): char
    requires n < 16
  {
    "0123456789ABCDEF"[n]
  }

  predicate IsUpperHex(c: char) {
    '0' <= c <= '9' || 'A' <= c <= 'F'
  }

  /** The value of an upper-case hex digit. */
  function HexValue(c: char): (n: nat)
    ensures n < 16
    ensures IsUpperHex(c) ==> UpperHexDigit(n) == c
  {
    if '0' <= c <= '9' then c as int - '0' as int
    else if 'A' <= c <= 'F' then c as int - 'A' as int + 10
    else 0
  }

  /** `b.toString(16)`: lower-case hex without leading zeros. */
  function ToHex(b: byte): string {
    if b < 16 then [LowerHexDigit(b as int)]
    else [LowerHexDigit(b as int / 16), LowerHexDigit(b as int % 16)]
  }

  /** `s.padStart(width, fill)` for a one-character fill. */
  function PadStart(s: string, width: nat, fill: char): string {
    if |s| < width then seq(width - |s|, _ => fill) + s else s
  }

  /** One byte as two lower-case hex digits, high nibble first. */
  function HexByte(b: byte): (r: string)
    ensures r == [LowerHexDigit(b as int / 16), LowerHexDigit(b as int % 16)]
  {
    PaddedHex(b);
    PadStart(ToHex(b), 2, '0')
  }

  lemma PaddedHex(b: byte)
    ensures PadStart(ToHex(b), 2, '0') == [LowerHexDigit(b as int / 16), LowerHexDigit(b as int % 16)]
  {
    if b < 16 {
      assert b as int / 16 == 0 && b as int % 16 == b as int;
      assert LowerHexDigit(0) == '0';
      assert seq(1, _ => '0') == ['0'];
    }
  }

  /** `bytes.map(b => b.toString(16).padStart(2, '0'))`. */
  function HexBytes(bytes: seq<byte>): (r: seq<string>)
    ensures |r| == |bytes|
  {
    if bytes == [] then [] else [HexByte(bytes[0])] + HexBytes(bytes[1..])
  }

  lemma {:induction false} HexBytesAt(bytes: seq<byte>)
    ensures forall i | 0 <= i < |bytes| :: HexBytes(bytes)[i] == HexByte(bytes[i])
  {
    if bytes != [] {
      var rest := HexBytes(bytes[1..]);
      HexBytesAt(bytes[1..]);
      assert HexBytes(bytes) == [HexByte(bytes[0])] + rest;
      forall i | 0 <= i < |bytes|
        ensures HexBytes(bytes)[i] == HexByte(bytes[i])
      {
        if i > 0 {
          assert bytes[1..][i - 1] == bytes[i];
        }
      }
    }
  }

  /** Lines 330-338: hex-print every byte, keep the first sixteen in groups
      of 4, 2, 2, 2 and 6 bytes, join them with `-` and upper-case it all. */
  function FormatUuid(bytes: seq<byte>): string
    requires |bytes| >= 16
  {
    ToUpper(Grouped(HexBytes(bytes)))
  }

  /** The first sixteen hex pairs in groups of 4, 2, 2, 2 and 6, joined by `-`. */
  function Grouped(hex: seq<string>): string
    requires |hex| >= 16
  {
    Join([Concat(hex[0..4]), Concat(hex[4..6]), Concat(hex[6..8]),
          Concat(hex[8..10]), Concat(hex[10..16])], '-')
  }

  /** The identifier `generateUUID(name)` returns, given the hash. */
  function NameUuid(sha1: string -> Digest, name: string): string {
    FormatUuid(Stamp(sha1(Namespace + name)))
  }

  /** `generateUUID`: copies the digest into a byte array, stamps bytes 6
      and 8 in place and formats the first sixteen bytes. */
  method GenerateUuid(sha1: string -> Digest, name: string) returns (id: string)
    ensures id == NameUuid(sha1, name)
    ensures IsUuidString(id) && id[14] == '5' && id[19] in "89AB"
  {
    var hash := sha1(Namespace + name);
    var bytes := new byte[|hash|](i requires 0 <= i < |hash| => hash[i]);
    bytes[6] := (bytes[6] & 0x0F) | 0x50;
    bytes[8] := (bytes[8] & 0x3F) | 0x80;
    assert bytes[..] == Stamp(hash);
    id := FormatUuid(bytes[..]);
    NameUuidShape(sha1, name);
  }

  /** Canonical 8-4-4-4-12 shape: 36 characters, dashes at 8, 13, 18 and 23,
      upper-case hex digits everywhere else. */
  predicate IsUuidString(u: string) {
    |u| == 36 &&
    forall i | 0 <= i < 36 ::
      if i == 8 || i == 13 || i == 18 || i == 23 then u[i] == '-' else IsUpperHex(u[i])
  }

  /** Where the two digits of byte `k` sit in the 36-character identifier. */
  function Offset(k: nat): nat
    requires k < 16
  {
    2 * k + (if k < 4 then 0 else if k < 6 then 1 else if k < 8 then 2 else if k < 10 then 3 else 4)
  }

  /** Reads the sixteen bytes back out of an identifier's hex digits. */
  function ParseUuid(u: string): (r: seq<byte>)
    requires |u| == 36
    ensures |r| == 16
  {
    seq(16, k requires 0 <= k < 16 =>
      (HexValue(u[Offset(k)]) * 16 + HexValue(u[Offset(k) + 1])) as byte)
  }

  /** `Concat` of two-character strings puts part `i` at positions `2 * i`
      and `2 * i + 1`. */
  lemma {:induction false} ConcatPairs(h: seq<string>)
    requires forall i | 0 <= i < |h| :: |h[i]| == 2
    ensures |Concat(h)| == 2 * |h|
    ensures forall i | 0 <= i < |h| :: Concat(h)[2 * i] == h[i][0] && Concat(h)[2 * i + 1] == h[i][1]
  {
    if h != [] {
      ConcatPairs(h[1..]);
      forall i | 1 <= i < |h|
        ensures Concat(h)[2 * i] == h[i][0] && Concat(h)[2 * i + 1] == h[i][1]
      {
        assert Concat(h)[2 * i] == Concat(h[1..])[2 * (i - 1)];
        assert Concat(h)[2 * i + 1] == Concat(h[1..])[2 * (i - 1) + 1];
      }
    }
  }

  lemma UpperOfLowerHex(n: nat)
    requires n < 16
    ensures UpperChar(LowerHexDigit(n)) == UpperHexDigit(n)
  {
  }

  /** Where every hex pair lands once grouped and joined. */
  lemma GroupedLayout(hex: seq<string>)
    requires |hex| >= 16
    requires forall i | 0 <= i < |hex| :: |hex[i]| == 2
    ensures var u := Grouped(hex);
      |u| == 36 && u[8] == '-' && u[13] == '-' && u[18] == '-' && u[23] == '-'
    ensures forall k | 0 <= k < 16 ::
      Grouped(hex)[Offset(k)] == hex[k][0] && Grouped(hex)[Offset(k) + 1] == hex[k][1]
  {
    var g := [Concat(hex[0..4]), Concat(hex[4..6]), Concat(hex[6..8]),
              Concat(hex[8..10]), Concat(hex[10..16])];
    ConcatPairs(hex[0..4]);
    ConcatPairs(hex[4..6]);
    ConcatPairs(hex[6..8]);
    ConcatPairs(hex[8..10]);
    ConcatPairs(hex[10..16]);
    var joined := g[0] + "-" + (g[1] + "-" + (g[2] + "-" + (g[3] + "-" + g[4])));
    assert Grouped(hex) == joined by {
      assert Join(g[4..], '-') == g[4];
      assert Join(g[3..], '-') == g[3] + "-" + g[4];
      assert Join(g[2..], '-') == g[2] + "-" + Join(g[3..], '-');
      assert Join(g[1..], '-') == g[1] + "-" + Join(g[2..], '-');
    }
    forall k | 0 <= k < 16
      ensures joined[Offset(k)] == hex[k][0] && joined[Offset(k) + 1] == hex[k][1]
    {
      if k < 4 {
        assert hex[0..4][k] == hex[k];
        assert joined[Offset(k)] == g[0][2 * k] && joined[Offset(k) + 1] == g[0][2 * k + 1];
      } else if k < 6 {
        assert hex[4..6][k - 4] == hex[k];
        assert joined[Offset(k)] == g[1][2 * (k - 4)] && joined[Offset(k) + 1] == g[1][2 * (k - 4) + 1];
      } else if k < 8 {
        assert hex[6..8][k - 6] == hex[k];
        assert joined[Offset(k)] == g[2][2 * (k - 6)] && joined[Offset(k) + 1] == g[2][2 * (k - 6) + 1];
      } else if k < 10 {
        assert hex[8..10][k - 8] == hex[k];
        assert joined[Offset(k)] == g[3][2 * (k - 8)] && joined[Offset(k) + 1] == g[3][2 * (k - 8) + 1];
      } else {
        assert hex[10..16][k - 10] == hex[k];
        assert joined[Offset(k)] == g[4][2 * (k - 10)] && joined[Offset(k) + 1] == g[4][2 * (k - 10) + 1];
      }
    }
  }

  /** Where every byte's digits land in the formatted identifier. */
  lemma FormatLayout(b: seq<byte>)
    requires |b| >= 16
    ensures |FormatUuid(b)| == 36
    ensures var u := FormatUuid(b);
      u[8] == '-' && u[13] == '-' && u[18] == '-' && u[23] == '-'
    ensures forall k | 0 <= k < 16 ::
      FormatUuid(b)[Offset(k)] == UpperHexDigit(b[k] as int / 16) &&
      FormatUuid(b)[Offset(k) + 1] == UpperHexDigit(b[k] as int % 16)
  {
    var hex := HexBytes(b);
    HexBytesAt(b);
    GroupedLayout(hex);
    var joined := Grouped(hex);
    ToUpperAt(joined);
    forall k | 0 <= k < 16
      ensures FormatUuid(b)[Offset(k)] == UpperHexDigit(b[k] as int / 16)
      ensures FormatUuid(b)[Offset(k) + 1] == UpperHexDigit(b[k] as int % 16)
    {
      UpperOfLowerHex(b[k] as int / 16);
      UpperOfLowerHex(b[k] as int % 16);
    }
  }

  /** Every position of an identifier other than the four dashes holds one
      of the two digits of some byte. */
  lemma DigitPosition(i: nat) returns (k: nat)
    requires i < 36 && i != 8 && i != 13 && i != 18 && i != 23
    ensures k < 16 && (i == Offset(k) || i == Offset(k) + 1)
  {
    var d := (if i > 8 then 1 else 0) + (if i > 13 then 1 else 0)
           + (if i > 18 then 1 else 0) + (if i > 23 then 1 else 0);
    k := (i - d) / 2;
  }

  lemma UpperHexDigitIsHex(n: nat)
    requires n < 16
    ensures IsUpperHex(UpperHexDigit(n))
  {
  }

  /** Every formatted identifier has the canonical shape. */
  lemma FormatIsUuid(b: seq<byte>)
    requires |b| >= 16
    ensures IsUuidString(FormatUuid(b))
  {
    FormatLayout(b);
    var u := FormatUuid(b);
    forall i | 0 <= i < 36 && i != 8 && i != 13 && i != 18 && i != 23
      ensures IsUpperHex(u[i])
    {
      var k := DigitPosition(i);
      UpperHexDigitIsHex(b[k] as int / 16);
      UpperHexDigitIsHex(b[k] as int % 16);
    }
  }

  lemma HexValueOfDigit(n: nat)
    requires n < 16
    ensures HexValue(UpperHexDigit(n)) == n
  {
  }

  lemma ByteOfNibbles(b: byte)
    ensures ((b as int / 16) * 16 + b as int % 16) as byte == b
  {
  }

  /** The two digits printed for a byte read back as that byte. */
  lemma ParseByte(hi: char, lo: char, b: byte)
    requires hi == UpperHexDigit(b as int / 16) && lo == UpperHexDigit(b as int % 16)
    ensures (HexValue(hi) * 16 + HexValue(lo)) as byte == b
  {
    HexValueOfDigit(b as int / 16);
    HexValueOfDigit(b as int % 16);
    ByteOfNibbles(b);
  }

  /** Parsing a formatted identifier recovers the first sixteen bytes. */
  lemma ParseFormat(b: seq<byte>)
    requires |b| >= 16
    ensures |FormatUuid(b)| == 36
    ensures ParseUuid(FormatUuid(b)) == b[..16]
  {
    FormatLayout(b);
    var u := FormatUuid(b);
    var p := ParseUuid(u);
    forall k | 0 <= k < 16
      ensures p[k] == b[k]
    {
      ParseByte(u[Offset(k)], u[Offset(k) + 1], b[k]);
    }
    assert p == b[..16];
  }

  lemma FormatIgnoresTail(b1: seq<byte>, b2: seq<byte>)
    requires |b1| >= 16 && |b2| >= 16
    requires b1[..16] == b2[..16]
    ensures FormatUuid(b1) == FormatUuid(b2)
  {
    var hex1, hex2 := HexBytes(b1), HexBytes(b2);
    HexBytesAt(b1);
    HexBytesAt(b2);
    forall i | 0 <= i < 16 ensures hex1[i] == hex2[i] {
      assert b1[..16][i] == b2[..16][i];
    }
    assert hex1[0..4] == hex2[0..4];
    assert hex1[4..6] == hex2[4..6];
    assert hex1[6..8] == hex2[6..8];
    assert hex1[8..10] == hex2[8..10];
    assert hex1[10..16] == hex2[10..16];
  }

  /** The identifier determines the first sixteen bytes: two byte strings
      print the same identifier iff their first sixteen bytes agree. */
  lemma FormatDependsOnPrefix(b1: seq<byte>, b2: seq<byte>)
    requires |b1| >= 16 && |b2| >= 16
    ensures FormatUuid(b1) == FormatUuid(b2) <==> b1[..16] == b2[..16]
  {
    if FormatUuid(b1) == FormatUuid(b2) {
      ParseFormat(b1);
      ParseFormat(b2);
    }
    if b1[..16] == b2[..16] {
      FormatIgnoresTail(b1, b2);
    }
  }

  /** The name-derived identifier has the version-5 shape: the digit at 14
      is `5` and the digit at 19 is one of `8`, `9`, `A`, `B`. */
  lemma NameUuidShape(sha1: string -> Digest, name: string)
    ensures var u := NameUuid(sha1, name);
      IsUuidString(u) && u[14] == '5' && u[19] in "89AB"
  {
    var s := Stamp(sha1(Namespace + name));
    FormatIsUuid(s);
    StampNibbles(sha1(Namespace + name));
    StampedDigits(s);
  }

  /** After stamping, the high nibble of byte 6 is 5 and that of byte 8 is
      between 8 and 11. */
  lemma StampNibbles(d: seq<byte>)
    requires |d| > 8
    ensures Stamp(d)[6] as int / 16 == 5 && 8 <= Stamp(d)[8] as int / 16 <= 11
  {
  }

  /** Bytes with those high nibbles print as `5` at 14 and one of `8`, `9`,
      `A`, `B` at 19. */
  lemma StampedDigits(b: seq<byte>)
    requires |b| >= 16 && b[6] as int / 16 == 5 && 8 <= b[8] as int / 16 <= 11
    ensures |FormatUuid(b)| == 36 && FormatUuid(b)[14] == '5' && FormatUuid(b)[19] in "89AB"
  {
    FormatLayout(b);
    assert Offset(6) == 14 && Offset(8) == 19;
    var v := b[8] as int / 16;
    assert UpperHexDigit(v) in "89AB";
  }

  /** What the identifier carries of the digest: bytes 0-15 other than 6
      and 8 verbatim, the low four bits of byte 6 under version 5, and the
      low six bits of byte 8 under variant `10`. */
  lemma NameUuidCarriesDigest(sha1: string -> Digest, name: string)
    ensures |NameUuid(sha1, name)| == 36
    ensures var d, p := sha1(Namespace + name), ParseUuid(NameUuid(sha1, name));
      && (forall k | 0 <= k < 16 && k != 6 && k != 8 :: p[k] == d[k])
      && p[6] & 0x0F == d[6] & 0x0F && p[6] >> 4 == 5
      && p[8] & 0x3F == d[8] & 0x3F && p[8] >> 6 == 2
  {
    var d := sha1(Namespace + name);
    NameUuidShape(sha1, name);
    ParseFormat(Stamp(d));
  }

  /** Two names whose digests agree on their first sixteen bytes get the same
      identifier; digest bytes 16-19 play no part. */
  lemma NameUuidIgnoresDigestTail(sha1: string -> Digest, n1: string, n2: string)
    requires sha1(Namespace + n1)[..16] == sha1(Namespace + n2)[..16]
    ensures NameUuid(sha1, n1) == NameUuid(sha1, n2)
  {
    var d1, d2 := sha1(Namespace + n1), sha1(Namespace + n2);
    var s1, s2 := Stamp(d1), Stamp(d2);
    forall i | 0 <= i < 16 ensures s1[i] == s2[i] {
      assert d1[..16][i] == d2[..16][i];
    }
    assert s1[..16] == s2[..16];
    FormatIgnoresTail(s1, s2);
  }
}
