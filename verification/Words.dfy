/** Four-byte integers in files, in either byte order. */
module Words {
  import opened Bytes
  import opened Collections

  datatype Endian = Little | Big

  const TWO_31: int := 0x8000_0000
  const TWO_32: int := 0x1_0000_0000

  predicate IsInt32(n: int) {
    -TWO_31 <= n < TWO_31
  }

  function Reverse<T>(s: seq<T>): (r: seq<T>)
    ensures |r| == |s| && forall k :: 0 <= k < |s| ==> r[k] == s[|s| - 1 - k]
  {
    if s == [] then [] else Reverse(s[1..]) + [s[0]]
  }

  /** The unsigned value of four bytes. */
  function UInt32(b: seq<byte>, endian: Endian): (n: nat)
    requires |b| == 4
    ensures n < TWO_32
  {
    match endian
    case Little => 0x100_0000 * (b[3] as int) + 0x1_0000 * (b[2] as int) + 0x100 * (b[1] as int) + b[0]
    case Big => 0x100_0000 * (b[0] as int) + 0x1_0000 * (b[1] as int) + 0x100 * (b[2] as int) + b[3]
  }

  /** The same bits read as a two's complement number. */
  function Int32(b: seq<byte>, endian: Endian): (n: int)
    requires |b| == 4
    ensures IsInt32(n)
  {
    var n := UInt32(b, endian);
    if n >= TWO_31 then n - TWO_32 else n
  }

  function LittleBytes(n: nat): (b: seq<byte>)
    requires n < TWO_32
    ensures |b| == 4 && UInt32(b, Little) == n
  {
    var p, q, r := n / 0x100, n / 0x1_0000, n / 0x100_0000;
    assert p == n / 0x100 && q == p / 0x100 && r == q / 0x100 && r < 0x100;
    [n % 0x100, p % 0x100, q % 0x100, r]
  }

  /** How a program that writes such files writes an integer. */
  function Int32Bytes(n: int, endian: Endian): (b: seq<byte>)
    requires IsInt32(n)
    ensures |b| == 4 && Int32(b, endian) == n
  {
    var b := LittleBytes(if n < 0 then n + TWO_32 else n);
    match endian
    case Little => b
    case Big => [b[3], b[2], b[1], b[0]]
  }

  /** Reading in one order what was reversed from the other gives the same number. */
  lemma ByteOrders(b: seq<byte>)
    requires |b| == 4
    ensures UInt32(b, Big) == UInt32(Reverse(b), Little)
  {
    assert Reverse(b) == [b[3], b[2], b[1], b[0]];
  }

  // ------------------------------------------------------- bytes in files

  lemma WordIn(file: seq<byte>, offset: nat, n: nat, k: nat)
    requires offset + 4 * n <= |file| && k < n
    ensures file[offset..offset + 4 * n][4 * k..4 * k + 4] == file[offset + 4 * k..offset + 4 * k + 4]
  {
    SliceOfSlice(file, offset, 4 * n, 4 * k, 4 * k + 4);
  }

  predicate AllInt32(values: seq<int>) {
    forall k :: 0 <= k < |values| ==> IsInt32(values[k])
  }

  /** An array of integers as a file holds it. */
  function IntBytes(values: seq<int>, endian: Endian): (b: seq<byte>)
    requires AllInt32(values)
    ensures |b| == 4 * |values|
  {
    if values == [] then [] else Int32Bytes(values[0], endian) + IntBytes(values[1..], endian)
  }

  lemma {:induction false} IntBytesAt(values: seq<int>, endian: Endian, k: nat)
    requires AllInt32(values) && k < |values|
    ensures IntBytes(values, endian)[4 * k..4 * k + 4] == Int32Bytes(values[k], endian)
    decreases k
  {
    hide Int32Bytes;
    var b := IntBytes(values, endian);
    if k > 0 {
      IntBytesAt(values[1..], endian, k - 1);
      assert b[4..|b|] == IntBytes(values[1..], endian);
      SliceOfSlice(b, 4, |b| - 4, 4 * (k - 1), 4 * (k - 1) + 4);
    }
  }
}
