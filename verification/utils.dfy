/** String helpers of the plugin: hexadecimal and binary renderings of a
    byte array, and upper-casing the first character of a string. */
module Utils {
  import opened Wrappers
  import opened JavaInt

  // ---------------------------------------------------------------------
  // bytesToHex

  /** The upper-case Base16 alphabet of section 8 of RFC 4648. */
  const HEX_DIGITS: string := "0123456789ABCDEF"

  predicate IsHexDigit(c: char)
  {
    '0' <= c <= '9' || 'A' <= c <= 'F'
  }

  function HexValue(c: char): (v: nat)
    requires IsHexDigit(c)
    ensures v < 16 && HEX_DIGITS[v] == c
  {
    if c <= '9' then (c - '0') as nat else (c - 'A') as nat + 10
  }

  lemma HexDigitsAreHexDigits(v: nat)
    requires v < 16
    ensures IsHexDigit(HEX_DIGITS[v]) && HexValue(HEX_DIGITS[v]) == v
  {
  }

  /** `s` spells `bytes` in Base16: two digits per byte, high nibble first. */
  predicate IsHexOf(s: string, bytes: seq<byte>)
  {
    |s| == 2 * |bytes| &&
    forall j | 0 <= j < |bytes| ::
      s[2 * j] == HEX_DIGITS[bytes[j] / 16] && s[2 * j + 1] == HEX_DIGITS[bytes[j] % 16]
  }

  /** The reading a Base16 decoder gives, the reference the encoder is
      checked against; anything but an even run of upper-case digits is
      rejected. */
  function HexToBytes(s: string): (r: Option<seq<byte>>)
    ensures r.Some? ==> 2 * |r.value| == |s|
    ensures (exists i | 0 <= i < |s| :: !IsHexDigit(s[i])) ==> r.None?
  {
    if |s| % 2 == 0 && forall i | 0 <= i < |s| :: IsHexDigit(s[i]) then
      Some(seq(|s| / 2, j requires 0 <= j < |s| / 2 => HexValue(s[2 * j]) * 16 + HexValue(s[2 * j + 1])))
    else
      None
  }

  /** The loop of `bytesToHex`: `v >>> 4` and `v & 0x0F` of the unsigned byte
      are its quotient and remainder by 16. */
  method BytesToHex(bytes: seq<byte>) returns (r: string)
    ensures IsHexOf(r, bytes)
    ensures HexToBytes(r) == Some(bytes)
  {
    var hexChars := new char[2 * |bytes|];
    for j := 0 to |bytes|
      invariant forall k | 0 <= k < j ::
        hexChars[2 * k] == HEX_DIGITS[bytes[k] / 16] && hexChars[2 * k + 1] == HEX_DIGITS[bytes[k] % 16]
    {
      var v := bytes[j];
      hexChars[j * 2] := HEX_DIGITS[v / 16];
      hexChars[j * 2 + 1] := HEX_DIGITS[v % 16];
    }
    r := hexChars[..];
    HexOfDecodes(r, bytes);
  }

  /** A Base16 spelling decodes to the bytes it spells, and a string decodes
      to some bytes only if it is their spelling. */
  lemma HexRoundTrip(s: string, bytes: seq<byte>)
    ensures HexToBytes(s) == Some(bytes) <==> IsHexOf(s, bytes)
  {
    if IsHexOf(s, bytes) {
      HexOfDecodes(s, bytes);
    }
    if HexToBytes(s) == Some(bytes) {
      DecodedIsHexOf(s, bytes);
    }
  }

  lemma NibblePair(v: byte, hi: nat, lo: nat)
    requires hi < 16 && lo < 16 && v == hi * 16 + lo
    ensures v / 16 == hi && v % 16 == lo
  {
  }

  lemma DecodedIsHexOf(s: string, bytes: seq<byte>)
    requires HexToBytes(s) == Some(bytes)
    ensures IsHexOf(s, bytes)
  {
    forall j | 0 <= j < |bytes|
      ensures s[2 * j] == HEX_DIGITS[bytes[j] / 16] && s[2 * j + 1] == HEX_DIGITS[bytes[j] % 16]
    {
      NibblePair(bytes[j], HexValue(s[2 * j]), HexValue(s[2 * j + 1]));
    }
  }

  lemma HexOfDecodes(s: string, bytes: seq<byte>)
    requires IsHexOf(s, bytes)
    ensures HexToBytes(s) == Some(bytes)
  {
    forall i | 0 <= i < |s| ensures IsHexDigit(s[i]) {
      var j := i / 2;
      if i % 2 == 0 {
        assert i == 2 * j;
        HexDigitsAreHexDigits(bytes[j] / 16);
      } else {
        assert i == 2 * j + 1;
        HexDigitsAreHexDigits(bytes[j] % 16);
      }
    }
    var d := HexToBytes(s).value;
    forall j | 0 <= j < |bytes| ensures d[j] == bytes[j] {
      HexDigitsAreHexDigits(bytes[j] / 16);
      HexDigitsAreHexDigits(bytes[j] % 16);
      assert d[j] == (bytes[j] / 16) * 16 + bytes[j] % 16;
    }
    assert d == bytes;
  }

  // ---------------------------------------------------------------------
  // bytesToBin

  function Digit(bit: nat): char
    requires bit < 2
  {
    if bit == 1 then '1' else '0'
  }

  /** `Integer.toBinaryString` of a positive int: no leading zeros. */
  function ToBinaryString(n: nat): (s: string)
    requires n > 0
    ensures |s| > 0 && s[0] == '1'
  {
    if n == 1 then "1" else ToBinaryString(n / 2) + [Digit(n % 2)]
  }

  /** The value of a string of binary digits, most significant first. */
  function BinValue(s: string): nat
  {
    if |s| == 0 then 0 else 2 * BinValue(s[..|s| - 1]) + (if s[|s| - 1] == '1' then 1 else 0)
  }

  function Pow2(k: nat): (r: nat)
    ensures r >= 1
  {
    if k == 0 then 1 else 2 * Pow2(k - 1)
  }

  /** `toBinaryString` spells its argument, with exactly as many digits as
      the argument's bit length. */
  lemma {:induction false} ToBinaryStringSpells(n: nat, k: nat)
    requires Pow2(k) <= n < Pow2(k + 1)
    ensures |ToBinaryString(n)| == k + 1
    ensures BinValue(ToBinaryString(n)) == n
    ensures forall i | 0 <= i < |ToBinaryString(n)| :: ToBinaryString(n)[i] in "01"
  {
    if n > 1 {
      ToBinaryStringSpells(n / 2, k - 1);
      var s := ToBinaryString(n);
      assert s[..|s| - 1] == ToBinaryString(n / 2);
    }
  }

  /** A leading digit weighs 2 to the number of digits after it. */
  lemma {:induction false} BinValueOfLeadingOne(rest: string)
    ensures BinValue("1" + rest) == Pow2(|rest|) + BinValue(rest)
  {
    if |rest| > 0 {
      var s := "1" + rest;
      assert s[..|s| - 1] == "1" + rest[..|rest| - 1];
      BinValueOfLeadingOne(rest[..|rest| - 1]);
    }
  }

  /** The eight digits of one byte: `toBinaryString((b & 0xFF) | 0x100)`
      without the leading 1 that the 0x100 forces. They spell the byte,
      most significant digit first. */
  function ByteToBin(b: byte): (r: string)
    ensures |r| == 8
    ensures forall i | 0 <= i < 8 :: r[i] in "01"
    ensures BinValue(r) == b
  {
    ByteToBinSpells(b + 256);
    ToBinaryString(b + 256)[1..]
  }

  lemma ByteToBinSpells(n: nat)
    requires 256 <= n < 512
    ensures |ToBinaryString(n)| == 9
    ensures forall i | 0 <= i < 9 :: ToBinaryString(n)[i] in "01"
    ensures BinValue(ToBinaryString(n)[1..]) == n - 256
  {
    assert Pow2(8) == 256 && Pow2(9) == 512;
    ToBinaryStringSpells(n, 8);
    var s := ToBinaryString(n);
    assert s == "1" + s[1..];
    BinValueOfLeadingOne(s[1..]);
  }

  /** The digits of every byte, one after another. */
  function AllDigits(bytes: seq<byte>): string
  {
    if |bytes| == 0 then "" else ByteToBin(bytes[0]) + AllDigits(bytes[1..])
  }

  lemma {:induction false} AllDigitsLayout(bytes: seq<byte>)
    ensures |AllDigits(bytes)| == 8 * |bytes|
    ensures forall j, k | 0 <= j < |bytes| && 0 <= k < 8 :: AllDigits(bytes)[8 * j + k] == ByteToBin(bytes[j])[k]
    ensures forall i | 0 <= i < |AllDigits(bytes)| :: AllDigits(bytes)[i] in "01"
  {
    if |bytes| > 0 {
      AllDigitsLayout(bytes[1..]);
      var d := AllDigits(bytes);
      forall j, k | 0 <= j < |bytes| && 0 <= k < 8 ensures d[8 * j + k] == ByteToBin(bytes[j])[k] {
        if j > 0 {
          assert d[8 * j + k] == AllDigits(bytes[1..])[8 * (j - 1) + k];
        }
      }
    }
  }

  /** `replaceAll("(.{4})", "$1 ")`: the regular expression consumes four
      characters at a time from the left, and a final group shorter than four
      is left as it is. */
  function GroupFours(s: string): string
  {
    if |s| < 4 then s else s[..4] + " " + GroupFours(s[4..])
  }

  /** `String.trim`: strip every character up to U+0020 at both ends. */
  function TrimStart(s: string): (r: string)
    ensures |r| <= |s| && r == s[|s| - |r|..]
  {
    if |s| > 0 && s[0] <= ' ' then TrimStart(s[1..]) else s
  }

  function TrimEnd(s: string): (r: string)
    ensures |r| <= |s| && r == s[..|r|]
  {
    if |s| > 0 && s[|s| - 1] <= ' ' then TrimEnd(s[..|s| - 1]) else s
  }

  function Trim(s: string): string
  {
    TrimEnd(TrimStart(s))
  }

  function BytesToBin(bytes: seq<byte>): string
  {
    Trim(GroupFours(AllDigits(bytes)))
  }

  /** The rendering the plugin means to produce, stated byte by byte: each
      byte's eight digits split into two groups of four, and every group
      separated from the next by a single space. */
  function Spaced(bytes: seq<byte>): string
    requires |bytes| > 0
  {
    var b := ByteToBin(bytes[0]);
    var head := b[..4] + " " + b[4..];
    if |bytes| == 1 then head else head + " " + Spaced(bytes[1..])
  }

  lemma {:induction false} SpacedShape(bytes: seq<byte>)
    requires |bytes| > 0
    ensures |Spaced(bytes)| == 10 * |bytes| - 1
    ensures Spaced(bytes)[0] in "01"
    ensures Spaced(bytes)[|Spaced(bytes)| - 1] in "01"
  {
    if |bytes| > 1 {
      SpacedShape(bytes[1..]);
    }
  }

  /** The regular expression puts a space after every four digits, which is
      the byte-by-byte rendering plus one trailing space. */
  lemma {:induction false} GroupedDigits(bytes: seq<byte>)
    requires |bytes| > 0
    ensures GroupFours(AllDigits(bytes)) == Spaced(bytes) + " "
  {
    var b := ByteToBin(bytes[0]);
    var rest := AllDigits(bytes[1..]);
    assert AllDigits(bytes) == b + rest;
    var t := b[4..] + rest;
    assert (b + rest)[..4] == b[..4] && (b + rest)[4..] == t;
    assert t[..4] == b[4..] && t[4..] == rest;
    if |bytes| == 1 {
      assert rest == "";
      assert GroupFours(rest) == "";
    } else {
      GroupedDigits(bytes[1..]);
    }
  }

  /** `bytesToBin`: no bytes give the empty string, and otherwise the
      byte-by-byte rendering, whose length is `10n - 1`. */
  lemma BytesToBinIsSpaced(bytes: seq<byte>)
    ensures |bytes| == 0 ==> BytesToBin(bytes) == ""
    ensures |bytes| > 0 ==> BytesToBin(bytes) == Spaced(bytes)
    ensures |BytesToBin(bytes)| == if |bytes| == 0 then 0 else 10 * |bytes| - 1
  {
    if |bytes| > 0 {
      NonEmptyIsSpaced(bytes);
    } else {
      assert AllDigits(bytes) == "";
      assert GroupFours("") == "";
      assert Trim("") == "";
    }
  }

  /** For at least one byte, trimming the grouped digits drops only the
      trailing space. */
  lemma NonEmptyIsSpaced(bytes: seq<byte>)
    requires |bytes| > 0
    ensures BytesToBin(bytes) == Spaced(bytes) && |Spaced(bytes)| == 10 * |bytes| - 1
  {
    GroupedDigits(bytes);
    SpacedShape(bytes);
    TrimDropsTrailingSpace(Spaced(bytes));
  }

  /** A string that starts and ends with a digit, plus one space, trims to
      the string itself. */
  lemma TrimDropsTrailingSpace(s: string)
    requires |s| > 0 && s[0] in "01" && s[|s| - 1] in "01"
    ensures Trim(s + " ") == s
  {
    var g := s + " ";
    assert g[0] > ' ';
    assert TrimStart(g) == g;
    assert g[..|g| - 1] == s;
    assert g[|g| - 1] <= ' ';
    assert TrimEnd(g) == TrimEnd(s);
    assert s[|s| - 1] > ' ';
    assert TrimEnd(s) == s;
  }

  // ---------------------------------------------------------------------
  // ucFirst

  /** `ucFirst(string, locale)`, with the locale's `toUpperCase` passed in
      as `upper`; upper-casing may change the length (`"ß"` becomes
      `"SS"`). */
  function UcFirst(s: string, upper: string -> string): (r: string)
    ensures |s| == 0 ==> r == ""
    ensures |s| > 0 ==> r == upper(s[..1]) + s[1..]
  {
    if |s| == 0 then "" else upper(s[..1]) + s[1..]
  }

  /** Only the first character is touched: the rest of the string survives
      as the suffix of the result. */
  lemma UcFirstKeepsRest(s: string, upper: string -> string)
    requires |s| > 0
    ensures |UcFirst(s, upper)| >= |s| - 1
    ensures UcFirst(s, upper)[|UcFirst(s, upper)| - (|s| - 1)..] == s[1..]
  {
    var r := UcFirst(s, upper);
    assert r[|upper(s[..1])|..] == s[1..];
  }

  /** When upper-casing maps each character to one character and is itself
      idempotent, so is `ucFirst`. */
  lemma UcFirstIdempotent(s: string, upper: string -> string)
    requires forall c: char :: |upper([c])| == 1 && upper(upper([c])) == upper([c])
    ensures UcFirst(UcFirst(s, upper), upper) == UcFirst(s, upper)
  {
    if |s| > 0 {
      var r := UcFirst(s, upper);
      assert s[..1] == [s[0]];
      assert r[..1] == upper([s[0]]);
      assert r[1..] == s[1..];
    }
  }
}
