/** Bytes and the little-endian unsigned words read from them, as the
    `byteorder` crate's `LittleEndian`/`LE` readers decode them. */
module Bytes {

  type u8 = x: int | 0 <= x < 0x100
  type u32 = x: int | 0 <= x < 0x1_0000_0000
  type u64 = x: int | 0 <= x < 0x1_0000_0000_0000_0000

  /** 256 to the power n: one more than the largest value n bytes hold. */
  function Pow256(n: nat): (r: nat)
    ensures r >= 1
  {
    if n == 0 then 1 else 256 * Pow256(n - 1)
  }

  /** The widths of a 32-bit and a 64-bit word. */
  lemma Pow256Widths()
    ensures Pow256(4) == 0x1_0000_0000
    ensures Pow256(8) == 0x1_0000_0000_0000_0000
  {
  }

  lemma {:induction false} Pow256Monotone(m: nat, n: nat)
    requires m <= n
    ensures Pow256(m) <= Pow256(n)
    decreases n
  {
    if m < n {
      Pow256Monotone(m, n - 1);
    }
  }

  /** The unsigned value of a little-endian byte string (least significant byte first). */
  function LeValue(b: seq<u8>): nat {
    if b == [] then 0 else b[0] + 256 * LeValue(b[1..])
  }

  /** n bytes hold values below 256^n. */
  lemma {:induction false} LeValueBound(b: seq<u8>)
    ensures LeValue(b) < Pow256(|b|)
  {
    if b != [] {
      LeValueBound(b[1..]);
      var rest := LeValue(b[1..]);
      assert rest + 1 <= Pow256(|b| - 1);
      assert 256 * (rest + 1) <= 256 * Pow256(|b| - 1);
    }
  }

  /** The n little-endian bytes that encode v. */
  function LeBytes(v: nat, n: nat): (b: seq<u8>)
    requires v < Pow256(n)
    ensures |b| == n
  {
    if n == 0 then [] else [v % 256] + LeBytes(v / 256, n - 1)
  }

  /** Decoding the encoding of a value gives the value back. */
  lemma {:induction false} LeValueOfBytes(v: nat, n: nat)
    requires v < Pow256(n)
    ensures LeValue(LeBytes(v, n)) == v
  {
    if n > 0 {
      LeValueOfBytes(v / 256, n - 1);
      assert LeBytes(v, n)[1..] == LeBytes(v / 256, n - 1);
    }
  }

  /** Encoding the value of a byte string gives the byte string back. */
  lemma {:induction false} LeBytesOfValue(b: seq<u8>)
    ensures LeValue(b) < Pow256(|b|) && LeBytes(LeValue(b), |b|) == b
  {
    LeValueBound(b);
    if b != [] {
      LeBytesOfValue(b[1..]);
      var v := LeValue(b);
      assert v % 256 == b[0] && v / 256 == LeValue(b[1..]);
    }
  }

  /** Bytes the read did not fill stay zero, and zero high bytes add nothing:
      a short little-endian buffer padded with zeros keeps its value. */
  lemma {:induction false} LeValueZeroPadded(b: seq<u8>, n: nat)
    ensures LeValue(b + seq(n, _ => 0)) == LeValue(b)
  {
    if b == [] {
      ZerosValue(n);
      assert b + seq(n, _ => 0) == seq(n, _ => 0);
    } else {
      LeValueZeroPadded(b[1..], n);
      assert (b + seq(n, _ => 0))[1..] == b[1..] + seq(n, _ => 0);
    }
  }

  lemma {:induction false} ZerosValue(n: nat)
    ensures LeValue(seq(n, _ => 0)) == 0
  {
    if n > 0 {
      ZerosValue(n - 1);
      assert seq(n, _ => 0)[1..] == seq(n - 1, _ => 0);
    }
  }

  /** `LittleEndian::read_u32` on a 4-byte buffer. */
  function LeU32(b: seq<u8>): u32
    requires |b| == 4
  {
    Pow256Widths();
    LeValueBound(b);
    LeValue(b)
  }

  /** The 64-bit word `read_f64::<LE>` reinterprets as a float. */
  function LeU64(b: seq<u8>): u64
    requires |b| == 8
  {
    Pow256Widths();
    LeValueBound(b);
    LeValue(b)
  }

  /** A 32-bit little-endian word: the first byte is the least significant. */
  lemma LeU32Bytes(b: seq<u8>)
    requires |b| == 4
    ensures LeU32(b) == (b[0] as int) + 0x100 * (b[1] as int) + 0x1_0000 * (b[2] as int) + 0x100_0000 * (b[3] as int)
  {
    assert LeValue(b[3..]) == b[3] by { assert b[3..][1..] == []; }
    assert LeValue(b[2..]) == (b[2] as int) + 0x100 * (b[3] as int) by { assert b[2..][1..] == b[3..]; }
    assert LeValue(b[1..]) == (b[1] as int) + 0x100 * (b[2] as int) + 0x1_0000 * (b[3] as int) by { assert b[1..][1..] == b[2..]; }
  }

  /** Every 64-bit word has exactly one 8-byte little-endian encoding. */
  lemma LeU64RoundTrip(v: u64, b: seq<u8>)
    requires |b| == 8
    ensures LeU64(b) == v <==> b == LeBytes(v, 8)
  {
    Pow256Widths();
    LeValueOfBytes(v, 8);
    LeBytesOfValue(b);
  }
}
