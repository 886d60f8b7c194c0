/**
 * The bit buffer that QR segments are built on: an append-only sequence of
 * bits, to which `AppendBits` adds the low bits of a number, most
 * significant bit first.
 */
module BitBuffer {

  function Pow2(n: nat): (r: nat)
    ensures r >= 1
  {
    if n == 0 then 1 else 2 * Pow2(n - 1)
  }

  /** The low `len` bits of `val`, most significant bit first. */
  function IntToBits(val: nat, len: nat): (r: seq<bool>)
    ensures |r| == len
  {
    if len == 0 then [] else IntToBits(val / 2, len - 1) + [val % 2 == 1]
  }

  /** Reads a sequence of bits, most significant bit first, as an unsigned number. */
  function BitsToInt(bits: seq<bool>): (r: nat)
    ensures r < Pow2(|bits|)
  {
    if bits == [] then 0
    else 2 * BitsToInt(bits[..|bits| - 1]) + (if bits[|bits| - 1] then 1 else 0)
  }

  /** Reading back the bits written for a value that fits in `len` bits gives the value. */
  lemma {:induction false} IntToBitsRoundTrip(val: nat, len: nat)
    requires val < Pow2(len)
    ensures BitsToInt(IntToBits(val, len)) == val
  {
    if len > 0 {
      IntToBitsRoundTrip(val / 2, len - 1);
      var s := IntToBits(val, len);
      assert s[..|s| - 1] == IntToBits(val / 2, len - 1);
    }
  }

  /** Writing the value that a bit sequence reads as gives back the same bits. */
  lemma {:induction false} BitsToIntRoundTrip(bits: seq<bool>)
    ensures IntToBits(BitsToInt(bits), |bits|) == bits
  {
    if bits != [] {
      var init := bits[..|bits| - 1];
      BitsToIntRoundTrip(init);
      var n := BitsToInt(bits);
      assert n / 2 == BitsToInt(init);
      assert (n % 2 == 1) == bits[|bits| - 1];
      assert bits == init + [bits[|bits| - 1]];
    }
  }

  /**
   * BitBuffer::appendBits(val, len): appends the low `len` bits of `val`,
   * most significant first; `len` is at most 31 and `val` must fit in it.
   */
  function AppendBits(bb: seq<bool>, val: int, len: int): (r: seq<bool>)
    requires 0 <= len <= 31 && 0 <= val < Pow2(len)
    ensures |r| == |bb| + len
    ensures r[..|bb|] == bb
    ensures BitsToInt(r[|bb|..]) == val
  {
    IntToBitsRoundTrip(val, len);
    assert (bb + IntToBits(val, len))[|bb|..] == IntToBits(val, len);
    bb + IntToBits(val, len)
  }
}
