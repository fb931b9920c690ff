/** Big-endian property cells, section 2.2.4 of the Devicetree Specification. */
module Cells {
  import opened Basics

  const TWO32: int := 0x1_0000_0000

  type U32 = c: int | 0 <= c < 0x1_0000_0000

  function EncodeCell(c: U32): (b: seq<Byte>)
    ensures |b| == 4
  {
    [c / 0x100_0000, c / 0x1_0000 % 256, c / 256 % 256, c % 256]
  }

  function DecodeCell(b: seq<Byte>): U32
    requires |b| == 4
  {
    var b0: int, b1: int, b2: int, b3: int := b[0], b[1], b[2], b[3];
    b0 * 0x100_0000 + b1 * 0x1_0000 + b2 * 256 + b3
  }

  function EncodeCells(cells: seq<U32>): (b: seq<Byte>)
    ensures |b| == 4 * |cells|
  {
    if cells == [] then [] else EncodeCell(cells[0]) + EncodeCells(cells[1..])
  }

  function DecodeCells(b: seq<Byte>): (cells: seq<U32>)
    requires |b| % 4 == 0
    ensures 4 * |cells| == |b|
  {
    if b == [] then [] else [DecodeCell(b[..4])] + DecodeCells(b[4..])
  }

  lemma {:induction false} CellRoundTrip(c: U32)
    ensures DecodeCell(EncodeCell(c)) == c
  {
    assert c / 0x1_0000 == c / 256 / 256 && c / 0x100_0000 == c / 256 / 256 / 256;
  }

  /** Decoding undoes encoding. */
  lemma {:induction false} CellsRoundTrip(cells: seq<U32>)
    ensures DecodeCells(EncodeCells(cells)) == cells
  {
    if cells != [] {
      CellRoundTrip(cells[0]);
      CellsRoundTrip(cells[1..]);
      var b := EncodeCells(cells);
      assert b[..4] == EncodeCell(cells[0]) && b[4..] == EncodeCells(cells[1..]);
    }
  }

  lemma {:induction false} CellLess(a: seq<Byte>, b: seq<Byte>, k: nat)
    requires |a| == 4 && |b| == 4 && k < 4 && a[k] < b[k] && forall i :: 0 <= i < k ==> a[i] == b[i]
    ensures DecodeCell(a) < DecodeCell(b)
  {
    assert k > 0 ==> a[0] == b[0];
    assert k > 1 ==> a[1] == b[1];
    assert k > 2 ==> a[2] == b[2];
  }

  lemma {:induction false} FirstDifference(a: seq<Byte>, b: seq<Byte>) returns (k: nat)
    requires |a| == 4 && |b| == 4 && a != b
    ensures k < 4 && a[k] != b[k] && forall i :: 0 <= i < k ==> a[i] == b[i]
  {
    k := if a[0] != b[0] then 0 else if a[1] != b[1] then 1 else if a[2] != b[2] then 2 else 3;
  }

  /** A cell is less than another iff it has the smaller byte where they first differ: the first counts most. */
  lemma {:induction false} CellOrder(a: seq<Byte>, b: seq<Byte>)
    requires |a| == 4 && |b| == 4
    ensures DecodeCell(a) < DecodeCell(b) <==>
      exists k :: 0 <= k < 4 && a[k] < b[k] && forall i :: 0 <= i < k ==> a[i] == b[i]
    ensures DecodeCell(a) == DecodeCell(b) <==> a == b
  {
    if a != b {
      var k := FirstDifference(a, b);
      if a[k] < b[k] {
        CellLess(a, b, k);
      } else {
        CellLess(b, a, k);
      }
    }
  }

  /** The last byte counts ones. */
  lemma {:induction false} LastByteIsOnes(b: Byte)
    ensures DecodeCell([0, 0, 0, b]) == b
  {
  }
}
