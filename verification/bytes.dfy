/** Byte-level reads of OS buffers: little-endian words (Windows is
    little-endian, so "native endian" is little endian) and the zero-filled
    buffers that the OS writes into. */
module Bytes {

  /** The 32-bit word with little-endian bytes `b0 b1 b2 b3`. */
  function Word32(b0: bv8, b1: bv8, b2: bv8, b3: bv8): bv32
  {
    (b0 as bv32) | ((b1 as bv32) << 8) | ((b2 as bv32) << 16) | ((b3 as bv32) << 24)
  }

  /** The 32-bit word stored little-endian at `buf[off..off + 4]`. */
  function U32At(buf: seq<bv8>, off: nat): bv32
    requires off + 4 <= |buf|
  {
    Word32(buf[off], buf[off + 1], buf[off + 2], buf[off + 3])
  }

  /** The four little-endian bytes of `v`: the inverse of `U32At`. */
  function LeBytes32(v: bv32): (b: seq<bv8>)
    ensures |b| == 4
    ensures U32At(b, 0) == v
  {
    [ (v & 0xFF) as bv8,
      ((v >> 8) & 0xFF) as bv8,
      ((v >> 16) & 0xFF) as bv8,
      ((v >> 24) & 0xFF) as bv8 ]
  }

  /** The byte `k` of a word assembled from four bytes is the k-th byte. */
  lemma ByteOfWord(b0: bv8, b1: bv8, b2: bv8, b3: bv8)
    ensures var v := Word32(b0, b1, b2, b3);
      && (v & 0xFF) as bv8 == b0
      && ((v >> 8) & 0xFF) as bv8 == b1
      && ((v >> 16) & 0xFF) as bv8 == b2
      && ((v >> 24) & 0xFF) as bv8 == b3
  {
  }

  /** Reading a word and writing it back reproduces the four bytes read. */
  lemma LeBytes32OfU32At(buf: seq<bv8>, off: nat)
    requires off + 4 <= |buf|
    ensures LeBytes32(U32At(buf, off)) == buf[off..off + 4]
  {
    ByteOfWord(buf[off], buf[off + 1], buf[off + 2], buf[off + 3]);
  }

  /** A word read depends only on its own four bytes. */
  lemma U32AtSlice(buf: seq<bv8>, off: nat, lo: nat, hi: nat)
    requires lo <= off && off + 4 <= hi <= |buf|
    ensures U32At(buf[lo..hi], off - lo) == U32At(buf, off)
  {
  }

  /** The same little-endian word read as a number, the way the source
      uses a `u32` as a count or an offset. */
  function U32Value(buf: seq<bv8>, off: nat): (n: nat)
    requires off + 4 <= |buf|
    ensures n < 0x1_0000_0000
  {
    Value32(buf[off], buf[off + 1], buf[off + 2], buf[off + 3])
  }

  /** The number with little-endian bytes `b0 b1 b2 b3`. */
  function Value32(b0: bv8, b1: bv8, b2: bv8, b3: bv8): (n: nat)
    ensures n < 0x1_0000_0000
  {
    ByteValue(b0) + 0x100 * (ByteValue(b1) + 0x100 * (ByteValue(b2) + 0x100 * ByteValue(b3)))
  }

  function ByteValue(b: bv8): (n: nat)
    ensures n < 0x100
  {
    b as nat
  }

  /** A number read depends only on its own four bytes. */
  lemma U32ValueSlice(buf: seq<bv8>, off: nat, lo: nat, hi: nat)
    requires lo <= off && off + 4 <= hi <= |buf|
    ensures U32Value(buf[lo..hi], off - lo) == U32Value(buf, off)
  {
  }

  /** The byte holding the number `n`, i.e. `n as bv8`. It is built by
      counting up from zero rather than with the conversion, because the
      solver relates a converted integer to its byte only unreliably, while
      this recursion gives `b as nat == n` by a plain induction. */
  function ByteOf(n: nat): (b: bv8)
    requires n < 0x100
    ensures b as nat == n
  {
    if n == 0 then
      0
    else
      var below := ByteOf(n - 1);
      assert below < 0xFF;
      below + 1
  }

  /** The low byte of `n`. */
  function LowByte(n: nat): (b: bv8)
    ensures b as nat == n % 0x100
  {
    ByteOf(n % 0x100)
  }

  lemma DivMod256(n: nat)
    ensures n == n % 0x100 + 0x100 * (n / 0x100)
  {
  }

  /** A number below 2^32 is its four base-256 digits. */
  lemma Digits(n: nat)
    requires n < 0x1_0000_0000
    ensures var q1 := n / 0x100; var q2 := q1 / 0x100; var q3 := q2 / 0x100;
      n == n % 0x100 + 0x100 * (q1 % 0x100 + 0x100 * (q2 % 0x100 + 0x100 * (q3 % 0x100)))
  {
    var q1 := n / 0x100;
    var q2 := q1 / 0x100;
    var q3 := q2 / 0x100;
    DivMod256(n);
    DivMod256(q1);
    DivMod256(q2);
    assert q1 < 0x100_0000;
    assert q2 < 0x1_0000;
    assert q3 < 0x100;
  }

  /** The four little-endian bytes of a number below 2^32: the inverse of
      `U32Value`. */
  function LeBytesOf(n: nat): (b: seq<bv8>)
    requires n < 0x1_0000_0000
    ensures |b| == 4
    ensures U32Value(b, 0) == n
  {
    var q1 := n / 0x100;
    var q2 := q1 / 0x100;
    var q3 := q2 / 0x100;
    var b := [LowByte(n), LowByte(q1), LowByte(q2), LowByte(q3)];
    Digits(n);
    assert U32Value(b, 0) == ByteValue(b[0]) + 0x100 * (ByteValue(b[1]) + 0x100 * (ByteValue(b[2]) + 0x100 * ByteValue(b[3])));
    b
  }

  /** A zero-initialised buffer of `n` bytes (`vec![0u8; n]`) after the OS
      has written `written` into it; bytes past `n` are never written. */
  function Fill(written: seq<bv8>, n: nat): (buf: seq<bv8>)
    ensures |buf| == n
    ensures |written| <= n ==> buf[..|written|] == written
    ensures n <= |written| ==> buf == written[..n]
    ensures forall i :: |written| <= i < n ==> buf[i] == 0
  {
    seq(n, i requires 0 <= i < n => if i < |written| then written[i] else 0)
  }
}
