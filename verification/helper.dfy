/**
 * Byte-slice conversions of the decoder (Loader/Loader/Helper.cs).
 *
 * The wire is big-endian. `System.BitConverter` reads in host order; the
 * host is taken to be little-endian (x86, ARM as .NET runs them), so every
 * BitConverter call is modelled by `LittleEndian` on the array it is given.
 */
module Helper {

  type byte = b: int | 0 <= b < 256

  const TWO_8: int := 0x100
  const TWO_16: int := 0x1_0000
  const TWO_24: int := 0x100_0000
  const TWO_31: int := 0x8000_0000
  const TWO_32: int := 0x1_0000_0000
  const TWO_63: int := 0x8000_0000_0000_0000
  const TWO_64: int := 0x1_0000_0000_0000_0000

  /**
   * The .NET library calls the conversions make and this model leaves
   * uninterpreted: `Encoding.UTF8.GetString` on a non-empty array, and the
   * text of `BitConverter.ToSingle` / `BitConverter.ToDouble` of the array
   * given to them (as `float.ToString()` / `double.ToString()` render it).
   */
  datatype Runtime = Runtime(
    utf8: seq<byte> -> string,
    singleText: seq<byte> -> string,
    doubleText: seq<byte> -> string)

  /** 256 to the power n. */
  function Pow256(n: nat): (p: nat)
    ensures p >= 1
  {
    if n == 0 then 1 else 256 * Pow256(n - 1)
  }

  /** The unsigned value of s read most significant byte first. */
  function BigEndian(s: seq<byte>): (v: nat)
    ensures v < Pow256(|s|)
  {
    if s == [] then 0
    else
      var hi := BigEndian(s[..|s| - 1]);
      assert hi <= Pow256(|s| - 1) - 1;
      hi * 256 + s[|s| - 1]
  }

  /** The unsigned value of s read least significant byte first (BitConverter on a little-endian host). */
  function LittleEndian(s: seq<byte>): (v: nat)
    ensures v < Pow256(|s|)
  {
    if s == [] then 0 else s[0] + 256 * LittleEndian(s[1..])
  }

  /** The n-byte big-endian encoding of v: the writer's side of `BigEndian`. */
  function ToBigEndian(v: nat, n: nat): (s: seq<byte>)
    requires v < Pow256(n)
    ensures |s| == n
  {
    if n == 0 then []
    else ToBigEndian(v / 256, n - 1) + [v % 256]
  }

  /** `Array.Reverse` of a copy. */
  function Reversed(s: seq<byte>): (r: seq<byte>)
    ensures |r| == |s|
    ensures forall i :: 0 <= i < |s| ==> r[i] == s[|s| - 1 - i]
  {
    if s == [] then [] else Reversed(s[1..]) + [s[0]]
  }

  /** Two's-complement reading of a 16-bit pattern. */
  function Signed16(v: nat): (i: int)
    requires v < TWO_16
    ensures -0x8000 <= i < 0x8000
    ensures i % TWO_16 == v
  {
    if v >= 0x8000 then v - TWO_16 else v
  }

  /** Two's-complement reading of a 32-bit pattern. */
  function Signed32(v: nat): (i: int)
    requires v < TWO_32
    ensures -TWO_31 <= i < TWO_31
    ensures i % TWO_32 == v
  {
    if v >= TWO_31 then v - TWO_32 else v
  }

  /** C#'s unchecked `(int)` cast of a UInt64: the low 32 bits, read as a signed int. */
  function UncheckedToInt32(v: nat): (i: int)
    requires v < TWO_64
    ensures -TWO_31 <= i < TWO_31
    ensures i % TWO_32 == v % TWO_32
    ensures v < TWO_31 ==> i == v
  {
    Signed32(v % TWO_32)
  }

  // ---------------------------------------------------------------------
  // Unsigned big-endian accumulations (Helper.cs:18-31)
  // ---------------------------------------------------------------------

  function ConvertToUint16(slice: seq<byte>): (v: nat)
    requires |slice| >= 2
    ensures v < TWO_16
    ensures v == BigEndian(slice[..2])
  {
    assert slice[..2][..1] == slice[..1];
    slice[0] * TWO_8 + slice[1]
  }

  function ConvertToUint32(slice: seq<byte>): (v: nat)
    requires |slice| >= 4
    ensures v < TWO_32
    ensures v == BigEndian(slice[..4])
  {
    BigEndianOfPrefix(slice, 4);
    slice[0] * TWO_24 + slice[1] * TWO_16 + slice[2] * TWO_8 + slice[3]
  }

  function ConvertToUint64(slice: seq<byte>): (v: nat)
    requires |slice| >= 8
    ensures v < TWO_64
    ensures v == BigEndian(slice[..8])
  {
    BigEndianOfPrefix(slice, 8);
    slice[0] * 0x100_0000_0000_0000 + slice[1] * 0x1_0000_0000_0000
    + slice[2] * 0x100_0000_0000 + slice[3] * 0x1_0000_0000
    + slice[4] * TWO_24 + slice[5] * TWO_16 + slice[6] * TWO_8 + slice[7]
  }

  /** Extending a prefix by one byte shifts its value by one byte. */
  lemma BigEndianSnoc(s: seq<byte>, k: nat)
    requires k < |s|
    ensures BigEndian(s[..k + 1]) == BigEndian(s[..k]) * 256 + s[k]
  {
    assert s[..k + 1][..k] == s[..k];
  }

  /** Unfolds BigEndian on a prefix of 4 or 8 bytes into its explicit sum. */
  lemma BigEndianOfPrefix(s: seq<byte>, n: nat)
    requires n == 4 || n == 8
    requires |s| >= n
    ensures n == 4 ==> BigEndian(s[..4]) == s[0] * TWO_24 + s[1] * TWO_16 + s[2] * TWO_8 + s[3]
    ensures n == 8 ==>
      BigEndian(s[..8]) ==
        s[0] * 0x100_0000_0000_0000 + s[1] * 0x1_0000_0000_0000
        + s[2] * 0x100_0000_0000 + s[3] * 0x1_0000_0000
        + s[4] * TWO_24 + s[5] * TWO_16 + s[6] * TWO_8 + s[7]
  {
    assert s[..0] == [];
    BigEndianSnoc(s, 0);
    BigEndianSnoc(s, 1);
    BigEndianSnoc(s, 2);
    BigEndianSnoc(s, 3);
    if n == 8 {
      BigEndianSnoc(s, 4);
      BigEndianSnoc(s, 5);
      BigEndianSnoc(s, 6);
      BigEndianSnoc(s, 7);
    }
  }

  /** Decoding the big-endian encoding of v gives v back. */
  lemma {:induction false} BigEndianOfToBigEndian(v: nat, n: nat)
    requires v < Pow256(n)
    ensures BigEndian(ToBigEndian(v, n)) == v
  {
    if n > 0 {
      var s := ToBigEndian(v, n);
      assert s[..n - 1] == ToBigEndian(v / 256, n - 1);
      BigEndianOfToBigEndian(v / 256, n - 1);
    }
  }

  /** Encoding the value of s on |s| bytes gives s back. */
  lemma {:induction false} ToBigEndianOfBigEndian(s: seq<byte>)
    ensures ToBigEndian(BigEndian(s), |s|) == s
  {
    if s != [] {
      var n := |s|;
      var init := s[..n - 1];
      var hi := BigEndian(init);
      var v := BigEndian(s);
      assert v == hi * 256 + s[n - 1];
      ShiftDivMod(hi, s[n - 1]);
      ToBigEndianOfBigEndian(init);
      assert ToBigEndian(v, n) == ToBigEndian(hi, n - 1) + [s[n - 1]];
      assert s == init + [s[n - 1]];
    }
  }

  /** Division by 256 undoes a one-byte shift. */
  lemma ShiftDivMod(hi: nat, low: byte)
    ensures (hi * 256 + low) / 256 == hi
    ensures (hi * 256 + low) % 256 == low
  {
  }

  /** A little-endian read of the reversed bytes is the big-endian read of the bytes. */
  lemma {:induction false} LittleEndianOfReversed(s: seq<byte>)
    ensures LittleEndian(Reversed(s)) == BigEndian(s)
  {
    if s != [] {
      var n := |s|;
      var r := Reversed(s);
      assert r[1..] == Reversed(s[..n - 1]);
      LittleEndianOfReversed(s[..n - 1]);
    }
  }

  // ---------------------------------------------------------------------
  // Signed and textual conversions (Helper.cs:33-95)
  // ---------------------------------------------------------------------

  /**
   * The text of `BitConverter.ToSingle` of the slice: the reversed copy is
   * discarded, so the un-reversed first four bytes reach BitConverter.
   */
  function ConvertToFloat(rt: Runtime, slice: seq<byte>): (t: string)
    requires |slice| >= 4
    ensures t == rt.singleText(slice[..4])
  {
    rt.singleText(slice[..4])
  }

  /** As ConvertToFloat, with eight bytes and `BitConverter.ToDouble`. */
  function ConvertToDouble(rt: Runtime, slice: seq<byte>): (t: string)
    requires |slice| >= 8
    ensures t == rt.doubleText(slice[..8])
  {
    rt.doubleText(slice[..8])
  }

  /**
   * Reverses a copy and reads its first four bytes little-endian: on a
   * four-byte slice, the big-endian two's-complement value.
   */
  function ConvertToInt(slice: seq<byte>): (v: int)
    requires |slice| >= 4
    ensures -TWO_31 <= v < TWO_31
    ensures |slice| == 4 ==> v == Signed32(ConvertToUint32(slice))
  {
    var reversed := Reversed(slice);
    assert Pow256(4) == TWO_32;
    assert |slice| == 4 ==> LittleEndian(reversed[..4]) == ConvertToUint32(slice) by {
      if |slice| == 4 {
        assert reversed[..4] == reversed;
        assert slice[..4] == slice;
        LittleEndianOfReversed(slice);
      }
    }
    Signed32(LittleEndian(reversed[..4]))
  }

  /** Longs are read unsigned: the same accumulation as ConvertToUint64. */
  function ConvertToLong(slice: seq<byte>): (v: nat)
    requires |slice| >= 8
    ensures v < TWO_64
    ensures v == BigEndian(slice[..8])
  {
    ConvertToUint64(slice)
  }

  /**
   * Reverses a copy but hands the un-reversed bytes to
   * `BitConverter.ToInt16`, so the two wire bytes are read swapped.
   */
  function ConvertToShort(slice: seq<byte>): (v: int)
    requires |slice| >= 2
    ensures -0x8000 <= v < 0x8000
    ensures v == Signed16(BigEndian([slice[1], slice[0]]))
  {
    var reversed := Reversed(slice);
    var read := slice[..2];
    assert LittleEndian(read) == slice[0] as int + 256 * slice[1] as int by {
      assert read[1..][1..] == [];
    }
    assert BigEndian([slice[1], slice[0]]) == slice[1] as int * 256 + slice[0] as int by {
      assert [slice[1], slice[0]][..1] == [slice[1]];
    }
    Signed16(LittleEndian(read))
  }

  /** `BitConverter.ToBoolean` of the un-reversed array: its first byte is non-zero. */
  function ConvertToBoolean(slice: seq<byte>): (b: bool)
    requires |slice| >= 1
    ensures b <==> slice[0] != 0
  {
    var reversed := Reversed(slice);
    slice[0] != 0
  }

  /** The upper-case hexadecimal digit of d. */
  function HexDigit(d: nat): (c: char)
    requires d < 16
    ensures c in "0123456789ABCDEF"
  {
    "0123456789ABCDEF"[d]
  }

  /** The value of an upper-case hexadecimal digit. */
  function HexValue(c: char): (d: nat)
    ensures d < 16
  {
    if '0' <= c <= '9' then c as int - '0' as int
    else if 'A' <= c <= 'F' then c as int - 'A' as int + 10
    else 0
  }

  /** The two upper-case hexadecimal digits of one byte ("{0:X2}"). */
  function HexPair(b: byte): (pair: string)
    ensures |pair| == 2
  {
    [HexDigit(b / 16), HexDigit(b % 16)]
  }

  /** Two hexadecimal digits per byte, in input order. */
  function HexText(slice: seq<byte>): (hex: string)
    ensures |hex| == 2 * |slice|
  {
    if slice == [] then "" else HexPair(slice[0]) + HexText(slice[1..])
  }

  /** One more byte appends its two digits. */
  lemma {:induction false} HexTextSnoc(s: seq<byte>, b: byte)
    ensures HexText(s + [b]) == HexText(s) + HexPair(b)
  {
    if s == [] {
      assert (s + [b])[1..] == [];
    } else {
      assert (s + [b])[1..] == s[1..] + [b];
      HexTextSnoc(s[1..], b);
    }
  }

  /** The StringBuilder loop: "{0:X2}" of each byte appended in turn. */
  method ConvertToHexByte(slice: seq<byte>) returns (hex: string)
    ensures hex == HexText(slice)
  {
    hex := "";
    var i := 0;
    while i < |slice|
      invariant 0 <= i <= |slice|
      invariant hex == HexText(slice[..i])
    {
      HexTextSnoc(slice[..i], slice[i]);
      assert slice[..i + 1] == slice[..i] + [slice[i]];
      hex := hex + HexPair(slice[i]);
      i := i + 1;
    }
    assert slice[..i] == slice;
  }

  /** Reads two hexadecimal digits per byte: the inverse of HexText. */
  function HexDecode(hex: string): seq<byte>
  {
    if |hex| < 2 then []
    else [HexByte(hex[0], hex[1])] + HexDecode(hex[2..])
  }

  /** The byte written by a high and a low hexadecimal digit. */
  function HexByte(hi: char, lo: char): byte
  {
    HexValue(hi) * 16 + HexValue(lo)
  }

  /** The hex text of a slice determines the slice. */
  lemma {:induction false} HexRoundTrip(slice: seq<byte>)
    ensures HexDecode(HexText(slice)) == slice
  {
    if slice != [] {
      var rest := HexText(slice[1..]);
      assert HexText(slice) == HexPair(slice[0]) + rest;
      HexDecodePair(slice[0], rest);
      HexRoundTrip(slice[1..]);
      assert slice == [slice[0]] + slice[1..];
    }
  }

  /** Decoding a byte's two digits in front of any text yields the byte in front of that text's decoding. */
  lemma HexDecodePair(b: byte, text: string)
    ensures HexDecode(HexPair(b) + text) == [b] + HexDecode(text)
  {
    var pair := HexPair(b);
    assert pair == [pair[0], pair[1]];
    HexPairValue(b);
    HexDecodeCons(pair[0], pair[1], text);
  }

  /** Decoding reads the first two digits, then the rest. */
  lemma HexDecodeCons(hi: char, lo: char, text: string)
    ensures HexDecode([hi, lo] + text) == [HexByte(hi, lo)] + HexDecode(text)
  {
    assert ([hi, lo] + text)[2..] == text;
  }

  /** The two digits of a byte read back as the byte. */
  lemma HexPairValue(b: byte)
    ensures HexByte(HexPair(b)[0], HexPair(b)[1]) == b
  {
    HexDigitValue(b / 16);
    HexDigitValue(b % 16);
  }

  /** HexValue reads back what HexDigit writes. */
  lemma HexDigitValue(d: nat)
    requires d < 16
    ensures HexValue(HexDigit(d)) == d
  {
  }

  /** `(char)b`: a character whose code is the byte, hence below 256. */
  function ConvertToChar(singlebyte: byte): (c: char)
    ensures c as int == singlebyte
    ensures (c as int) < 256
  {
    singlebyte as char
  }

  /** `Encoding.UTF8.GetString` on a non-empty slice; the empty slice is the empty text, never an error. */
  function ConvertToUTF(rt: Runtime, slice: seq<byte>): (text: string)
    ensures |slice| == 0 ==> text == ""
    ensures |slice| > 0 ==> text == rt.utf8(slice)
  {
    if |slice| > 0 then rt.utf8(slice) else ""
  }
}
