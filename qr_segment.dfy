/**
 * QR Code segments (QrSegment in QRCodeGenerator): the segment modes with
 * their indicator bits and character-count widths (Table 3 of ISO/IEC
 * 18004:2015), the byte-mode factory, the numeric and alphanumeric
 * classifiers, and the total bit length of a list of segments.
 */
module QrSegment {
  import opened Wrappers
  import opened BitBuffer

  /** INT_MAX of a 32-bit C++ int. */
  const INT_MAX: int := 0x7FFF_FFFF

  type UInt8 = x: int | 0 <= x < 256

  /**
   * C++ integer division, which truncates toward zero: the remainder
   * a - r * b is smaller than b in magnitude and has the dividend's sign.
   */
  function TruncDiv(a: int, b: int): (r: int)
    requires b > 0
    ensures -b < a - r * b < b && (a - r * b) * a >= 0
  {
    if a >= 0 then a / b
    else
      var q := (-a) / b;
      assert -a == q * b + (-a) % b;
      -q
  }

  /** The index into a mode's three character-count widths for version `ver`: (ver + 7) / 17. */
  function CountBracket(ver: int): int
  {
    TruncDiv(ver + 7, 17)
  }

  /** The three versions ranges 1-9, 10-26 and 27-40 pick widths 0, 1 and 2. */
  lemma VersionBrackets(ver: int)
    requires 1 <= ver <= 40
    ensures 0 <= CountBracket(ver) <= 2
    ensures CountBracket(ver) == 0 <==> ver <= 9
    ensures CountBracket(ver) == 1 <==> 10 <= ver <= 26
    ensures CountBracket(ver) == 2 <==> 27 <= ver
  {
  }

  /** QrSegment::Mode: how a segment's data bits are interpreted. */
  datatype Mode = Numeric | Alphanumeric | Byte | Kanji | Eci
  {
    /** getModeBits: the 4-bit mode indicator. */
    function ModeBits(): (r: int)
      ensures 0 <= r < 16
    {
      match this
      case Numeric => 0x1
      case Alphanumeric => 0x2
      case Byte => 0x4
      case Kanji => 0x8
      case Eci => 0x7
    }

    /** numBitCharCount: the character-count widths for the three version ranges. */
    function CharCountWidths(): (r: seq<int>)
      ensures |r| == 3
    {
      match this
      case Numeric => [10, 12, 14]
      case Alphanumeric => [9, 11, 13]
      case Byte => [8, 16, 16]
      case Kanji => [8, 10, 12]
      case Eci => [0, 0, 0]
    }

    /**
     * numCharCountBits: the width of the character-count field at version
     * `ver`; the array read needs the bracket index to be 0, 1 or 2.
     */
    function NumCharCountBits(ver: int): (r: int)
      requires 0 <= CountBracket(ver) < 3
      ensures 0 <= r <= 16
      ensures this == Eci ==> r == 0
    {
      CharCountWidths()[CountBracket(ver)]
    }
  }

  /** The mode indicators are distinct: a decoder can tell the mode from its 4 bits. */
  lemma ModeBitsInjective(m1: Mode, m2: Mode)
    ensures m1.ModeBits() == m2.ModeBits() ==> m1 == m2
  {
  }

  /**
   * A QR segment: its mode, its length in characters (bytes in byte mode,
   * 0 for ECI; not the bit length) and its data bits.
   */
  datatype Segment = Segment(mode: Mode, numChars: int, data: seq<bool>)
  {
    /** The documented field invariant: the count is a non-negative int, and 0 in ECI mode. */
    predicate Valid()
    {
      0 <= numChars <= INT_MAX && (mode == Eci ==> numChars == 0)
    }
  }

  datatype Error = DataTooLong

  /** Splits a bit sequence whose length is a multiple of 8 back into bytes, 8 bits each, most significant bit first. */
  function DecodeBytes(bits: seq<bool>): (r: seq<UInt8>)
    requires |bits| % 8 == 0
    ensures |r| * 8 == |bits|
  {
    if bits == [] then []
    else DecodeBytes(bits[..|bits| - 8]) + [BitsToInt(bits[|bits| - 8..])]
  }

  /** Byte `i` of the decoded sequence is read from bits 8i to 8i+7. */
  lemma {:induction false} DecodeBytesAt(bits: seq<bool>, i: nat)
    requires |bits| % 8 == 0 && i < |bits| / 8
    ensures DecodeBytes(bits)[i] == BitsToInt(bits[8 * i..8 * i + 8])
  {
    var init := bits[..|bits| - 8];
    assert DecodeBytes(bits) == DecodeBytes(init) + [BitsToInt(bits[|bits| - 8..])];
    if i < |init| / 8 {
      DecodeBytesAt(init, i);
      assert init[8 * i..8 * i + 8] == bits[8 * i..8 * i + 8];
    } else {
      assert 8 * i == |bits| - 8;
      assert |DecodeBytes(init)| == i;
      assert bits[8 * i..8 * i + 8] == bits[|bits| - 8..];
    }
  }

  /** Appending the 8 bits of a byte appends that byte to the decoding. */
  lemma DecodeBytesAppend(bb: seq<bool>, b: UInt8)
    requires |bb| % 8 == 0
    ensures Pow2(8) == 256
    ensures |AppendBits(bb, b, 8)| % 8 == 0
    ensures DecodeBytes(AppendBits(bb, b, 8)) == DecodeBytes(bb) + [b]
  {
    assert Pow2(8) == 256;
    var r := AppendBits(bb, b, 8);
    assert r[..|r| - 8] == bb;
  }

  /** One step of makeBytes' loop: the first i + 1 bytes, encoded, decode back. */
  lemma DecodeBytesPrefix(bb: seq<bool>, data: seq<UInt8>, i: nat)
    requires i < |data| && |bb| == 8 * i && DecodeBytes(bb) == data[..i]
    ensures Pow2(8) == 256
    ensures |AppendBits(bb, data[i], 8)| == 8 * (i + 1)
    ensures DecodeBytes(AppendBits(bb, data[i], 8)) == data[..i + 1]
  {
    DecodeBytesAppend(bb, data[i]);
    assert data[..i + 1] == data[..i] + [data[i]];
  }

  /** A bit sequence that decodes to `data` holds byte i, as 8 bits, at 8i. */
  lemma DecodeBytesChunks(bb: seq<bool>, data: seq<UInt8>)
    requires |bb| == 8 * |data| && DecodeBytes(bb) == data
    ensures forall k :: 0 <= k < |data| ==> bb[8 * k..8 * k + 8] == IntToBits(data[k], 8)
  {
    forall k | 0 <= k < |data|
      ensures bb[8 * k..8 * k + 8] == IntToBits(data[k], 8)
    {
      DecodeBytesAt(bb, k);
      BitsToIntRoundTrip(bb[8 * k..8 * k + 8]);
    }
  }

  /**
   * makeBytes: a byte-mode segment holding `data`, one byte per 8 bits;
   * inputs longer than INT_MAX are rejected with a length error.
   */
  method MakeBytes(data: seq<UInt8>) returns (r: Result<Segment, Error>)
    ensures r.Err? <==> |data| > INT_MAX
    ensures r.Err? ==> r.error == DataTooLong
    ensures r.Ok? ==> r.value.Valid()
    ensures r.Ok? ==> r.value.mode == Byte && r.value.numChars == |data|
    ensures r.Ok? ==> |r.value.data| == 8 * |data|
    ensures r.Ok? ==> DecodeBytes(r.value.data) == data
    ensures r.Ok? ==> forall i :: 0 <= i < |data| ==> r.value.data[8 * i..8 * i + 8] == IntToBits(data[i], 8)
  {
    if |data| > INT_MAX {
      return Err(DataTooLong);
    }
    var bb := ByteBits(data);
    DecodeBytesChunks(bb, data);
    return Ok(Segment(Byte, |data|, bb));
  }

  /** makeBytes' loop: the bits of every byte in turn, 8 per byte. */
  method ByteBits(data: seq<UInt8>) returns (bb: seq<bool>)
    ensures |bb| == 8 * |data| && DecodeBytes(bb) == data
  {
    bb := [];
    var i := 0;
    while i < |data|
      invariant 0 <= i <= |data|
      invariant |bb| == 8 * i
      invariant DecodeBytes(bb) == data[..i]
    {
      DecodeBytesPrefix(bb, data, i);
      bb := AppendBits(bb, data[i], 8);
      i := i + 1;
    }
    assert data[..i] == data;
  }

  /** isNumberic: every character of the text is a decimal digit. */
  function IsNumeric(text: seq<char>): (r: bool)
    ensures r <==> forall i :: 0 <= i < |text| ==> '0' <= text[i] <= '9'
  {
    if text == [] then true
    else '0' <= text[0] <= '9' && IsNumeric(text[1..])
  }

  /** The nine punctuation characters of the alphanumeric charset, in ascending code order. */
  const ALPHANUMERIC_MARKS: seq<char> := " $%*+-./:"

  /**
   * ALPHANUMERIC_CHARSET, "0123456789ABCDEFGHIJKLMNOPQRSTUVWXYZ $%*+-./:":
   * each character's value in alphanumeric mode is its index here.
   */
  function AlphanumericCharset(): (r: seq<char>)
    ensures |r| == 45
  {
    seq(10, k requires 0 <= k < 10 => ('0' as int + k) as char) +
    seq(26, k requires 0 <= k < 26 => ('A' as int + k) as char) +
    ALPHANUMERIC_MARKS
  }

  /** The charset is exactly digits, upper-case letters and the nine marks listed in the header. */
  lemma CharsetMembers(c: char)
    ensures c in AlphanumericCharset() <==> ('0' <= c <= '9' || 'A' <= c <= 'Z' || c in ALPHANUMERIC_MARKS)
  {
    if '0' <= c <= '9' {
      assert AlphanumericCharset()[c as int - '0' as int] == c;
    } else if 'A' <= c <= 'Z' {
      assert AlphanumericCharset()[10 + c as int - 'A' as int] == c;
    } else if c in ALPHANUMERIC_MARKS {
      var k :| 0 <= k < 9 && ALPHANUMERIC_MARKS[k] == c;
      assert AlphanumericCharset()[36 + k] == c;
    }
  }

  lemma CharsetDistinct(i: nat, j: nat)
    requires i < j < |AlphanumericCharset()|
    ensures AlphanumericCharset()[i] != AlphanumericCharset()[j]
  {
    if i >= 36 {
      assert forall a, b :: 0 <= a < b < 9 ==> ALPHANUMERIC_MARKS[a] < ALPHANUMERIC_MARKS[b];
    }
  }

  /** Whether a character can be encoded in alphanumeric mode. */
  predicate IsAlphanumericChar(c: char)
  {
    c in AlphanumericCharset()
  }

  /** isAlphanumeric: every character of the text is in the alphanumeric charset. */
  function IsAlphanumeric(text: seq<char>): (r: bool)
    ensures r <==> forall i :: 0 <= i < |text| ==> IsAlphanumericChar(text[i])
  {
    if text == [] then true
    else IsAlphanumericChar(text[0]) && IsAlphanumeric(text[1..])
  }

  /** Text encodable in numeric mode is also encodable in alphanumeric mode. */
  lemma NumericIsAlphanumeric(text: seq<char>)
    requires IsNumeric(text)
    ensures IsAlphanumeric(text)
  {
    forall i | 0 <= i < |text|
      ensures IsAlphanumericChar(text[i])
    {
      CharsetMembers(text[i]);
    }
  }

  /** The position of the first occurrence of `c` in `s`. */
  function IndexOf(s: seq<char>, c: char): (r: nat)
    requires c in s
    ensures r < |s| && s[r] == c
    ensures forall j :: 0 <= j < r ==> s[j] != c
  {
    if s[0] == c then 0 else 1 + IndexOf(s[1..], c)
  }

  /** The value of an alphanumeric character: its index in the charset. */
  function AlphanumericValue(c: char): (r: nat)
    requires c in AlphanumericCharset()
    ensures r < 45 && AlphanumericCharset()[r] == c
  {
    IndexOf(AlphanumericCharset(), c)
  }

  /** Every index of the charset is the value of the character there: no character is listed twice. */
  lemma AlphanumericValueOfIndex(i: nat)
    requires i < |AlphanumericCharset()|
    ensures AlphanumericValue(AlphanumericCharset()[i]) == i
  {
    var v := AlphanumericValue(AlphanumericCharset()[i]);
    if v < i {
      CharsetDistinct(v, i);
    }
  }

  /** Whether a segment's character count fits its count field at a version. */
  predicate CountFits(seg: Segment, ver: int)
    requires 1 <= ver <= 40
  {
    seg.numChars < Pow2(seg.mode.NumCharCountBits(ver))
  }

  /** Whether every segment's character count fits its count field at a version. */
  predicate AllCountsFit(segs: seq<Segment>, ver: int)
    requires 1 <= ver <= 40
  {
    forall k :: 0 <= k < |segs| ==> CountFits(segs[k], ver)
  }

  /** Bits a segment takes at a version: mode indicator, count field and data. */
  function SegmentBits(seg: Segment, ver: int): (r: nat)
    requires 1 <= ver <= 40
  {
    4 + seg.mode.NumCharCountBits(ver) + |seg.data|
  }

  /** The exact bit length of a segment list, ignoring int overflow. */
  function TotalBits(segs: seq<Segment>, ver: int): (r: nat)
    requires 1 <= ver <= 40
  {
    if segs == [] then 0 else SegmentBits(segs[0], ver) + TotalBits(segs[1..], ver)
  }

  /**
   * The stepwise computation behind getTotalBits: `acc` bits counted so far;
   * gives -1 when a count does not fit its field or the running sum would
   * pass INT_MAX.
   */
  function TotalBitsFrom(segs: seq<Segment>, ver: int, acc: int): (r: int)
    requires 1 <= ver <= 40 && 0 <= acc <= INT_MAX
    ensures r == (if AllCountsFit(segs, ver) && acc + TotalBits(segs, ver) <= INT_MAX
                  then acc + TotalBits(segs, ver) else -1)
    decreases |segs|
  {
    if segs == [] then acc
    else
      var seg := segs[0];
      var ccbits := seg.mode.NumCharCountBits(ver);
      if !CountFits(seg, ver) then -1
      else if 4 + ccbits > INT_MAX - acc then -1
      else if |seg.data| > INT_MAX - (acc + 4 + ccbits) then -1
      else TotalBitsFrom(segs[1..], ver, acc + 4 + ccbits + |seg.data|)
  }

  /**
   * getTotalBits: the number of bits needed to encode `segs` at version
   * `ver`, or -1 when a segment has too many characters for its count field
   * or the total passes INT_MAX.
   */
  function GetTotalBits(segs: seq<Segment>, ver: int): (r: int)
    requires 1 <= ver <= 40
    ensures r == -1 || 0 <= r <= INT_MAX
    ensures r >= 0 <==> AllCountsFit(segs, ver) && TotalBits(segs, ver) <= INT_MAX
    ensures r >= 0 ==> r == TotalBits(segs, ver)
  {
    TotalBitsFrom(segs, ver, 0)
  }
}
