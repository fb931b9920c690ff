/** The ext4 adapter's transfers in terms of blocks: where they go, and what they leave alone. */
module Ext4Blocks {
  import opened Basics
  import opened BlockAdapters
  import opened BlockSpec
  import opened BlockStack

  /** `d'` is `d` with the first `count` blocks of `buffer` at block `blockId` of the window from sector `first`. */
  predicate BlocksWritten(d: Device, first: nat, blockId: nat, count: nat, buffer: seq<Byte>, d': Device) {
    var at, n := first * 512 + blockId * 4096, count * 4096;
    && d'.bad == d.bad && |d'.data| == |d.data| && n <= |buffer| && (n > 0 ==> at + n <= |d.data|)
    && forall i :: 0 <= i < |d.data| ==> d'.data[i] == if at <= i < at + n then buffer[i - at] else d.data[i]
  }

  /** `now` is `before` with `count` blocks from block `blockId` of the window on at its start. */
  predicate BlocksRead(d: Device, first: nat, blockId: nat, count: nat, before: seq<Byte>, now: seq<Byte>) {
    var at, n := first * 512 + blockId * 4096, count * 4096;
    && |now| == |before| && n <= |now| && (n > 0 ==> at + n <= |d.data|)
    && forall i :: 0 <= i < |now| ==> now[i] == if i < n then d.data[at + i] else before[i]
  }

  /** There is room for the blocks in the window and in the buffer, and all their sectors are good. */
  ghost predicate CanTransfer(d: Device, v: View, blockId: nat, count: nat, len: nat) {
    count > 0 ==>
      && (blockId + count) * 4096 <= v.count * 512 && count * 4096 <= len
      && forall s: nat :: v.first + blockId * 8 <= s < v.first + (blockId + count) * 8 ==> Good(d, s)
  }

  /** The cursor of a call with work to do that fits stands at its block. */
  lemma {:induction false} AtItsBlock(v: View, blockId: nat, count: nat, len: nat)
    requires count > 0
    ensures count * 4096 <= Available(BlockAt(v, blockId), len) <==>
      (blockId + count) * 4096 <= v.count * 512 && count * 4096 <= len
    ensures count * 4096 <= Available(BlockAt(v, blockId), len) ==>
      BlockAt(v, blockId).Absolute() == v.first * 512 + blockId * 4096
  {
  }

  lemma {:induction false} SectorsOfBlocks(d: Device, first: nat, blockId: nat, count: nat)
    requires count > 0
    ensures var at := first * 512 + blockId * 4096;
      AllGood(d, at, at + count * 4096) <==>
      forall s: nat :: first + blockId * 8 <= s < first + (blockId + count) * 8 ==> Good(d, s)
  {
    var at := first * 512 + blockId * 4096;
    assert at / BLOCK == first + blockId * 8;
    forall s: nat
      ensures at / BLOCK <= s && s * BLOCK < at + count * 4096
         <==> first + blockId * 8 <= s < first + (blockId + count) * 8
    {
    }
  }

  /** A call that has ended has succeeded if and only if its blocks can be transferred. */
  lemma {:induction false} EndsWellIff(d: Device, v: View, buffer: seq<Byte>, blockId: nat, count: nat, write: bool,
        s: Loop)
    requires Transferred(d, BlockAt(v, blockId), buffer, count * EXT4_BLOCK, write, s)
    ensures !s.failed <==> CanTransfer(d, v, blockId, count, |buffer|)
  {
    if count > 0 {
      AtItsBlock(v, blockId, count, |buffer|);
      SectorsOfBlocks(d, v.first, blockId, count);
    }
  }

  /** A write that succeeds puts the blocks in their place, and changes nothing else on the device. */
  lemma {:induction false} WriteIsInPlace(d: Device, v: View, buffer: seq<Byte>, blockId: nat, count: nat, s: Loop)
    requires Transferred(d, BlockAt(v, blockId), buffer, count * EXT4_BLOCK, true, s) && !s.failed
    ensures BlocksWritten(d, v.first, blockId, count, buffer, s.device)
  {
    if count > 0 {
      AtItsBlock(v, blockId, count, |buffer|);
    }
  }

  /** A read that succeeds gives the blocks from their place, and keeps the rest of the buffer. */
  lemma {:induction false} ReadIsFromPlace(d: Device, v: View, buffer: seq<Byte>, blockId: nat, count: nat, s: Loop)
    requires Transferred(d, BlockAt(v, blockId), buffer, count * EXT4_BLOCK, false, s) && !s.failed
    ensures BlocksRead(d, v.first, blockId, count, buffer, s.buffer)
  {
    if count > 0 {
      AtItsBlock(v, blockId, count, |buffer|);
    }
  }

  // ---- the window's bytes

  /** A block of a window. */
  function BlockOf(c: seq<Byte>, b: nat): seq<Byte>
    requires (b + 1) * 4096 <= |c|
  {
    c[b * 4096..(b + 1) * 4096]
  }

  /** The window's bytes are the old ones with the blocks spliced in at their place. */
  lemma {:induction false} WindowAfterWrite(d: Device, v: View, blockId: nat, count: nat, buffer: seq<Byte>, d': Device)
    requires Fits(d, v) && (blockId + count) * 4096 <= v.Size() && BlocksWritten(d, v.first, blockId, count, buffer, d')
    ensures Fits(d', v)
    ensures Contents(d', v) == Splice(Contents(d, v), blockId * 4096, buffer[..count * 4096])
  {
    var c, c', from, n := Contents(d, v), Contents(d', v), blockId * 4096, count * 4096;
    var r := Splice(c, from, buffer[..n]);
    forall i | 0 <= i < |c| ensures c'[i] == r[i] {
      assert c'[i] == d'.data[v.first * BLOCK + i] && c[i] == d.data[v.first * BLOCK + i];
    }
  }

  lemma {:induction false} WindowRead(d: Device, v: View, blockId: nat, count: nat, before: seq<Byte>, now: seq<Byte>)
    requires Fits(d, v) && (blockId + count) * 4096 <= v.Size() && BlocksRead(d, v.first, blockId, count, before, now)
    ensures now == Contents(d, v)[blockId * 4096..(blockId + count) * 4096] + before[count * 4096..]
  {
  }

  /** Writing blocks leaves every other block as it was. */
  lemma {:induction false} OtherBlocksStay(c: seq<Byte>, blockId: nat, count: nat, bytes: seq<Byte>, b: nat)
    requires |bytes| == count * 4096 && (blockId + count) * 4096 <= |c| && (b + 1) * 4096 <= |c|
    ensures var after := Splice(c, blockId * 4096, bytes);
      BlockOf(after, b) ==
        if blockId <= b < blockId + count then bytes[(b - blockId) * 4096..(b - blockId + 1) * 4096] else BlockOf(c, b)
  {
    var after := Splice(c, blockId * 4096, bytes);
    var got := BlockOf(after, b);
    if blockId <= b < blockId + count {
      var want := bytes[(b - blockId) * 4096..(b - blockId + 1) * 4096];
      assert |got| == |want| && forall i :: 0 <= i < 4096 ==> got[i] == want[i];
    } else {
      var want := BlockOf(c, b);
      assert |got| == |want| && forall i :: 0 <= i < 4096 ==> got[i] == want[i];
    }
  }

  // ---- the two calls

  /**
   * `write` of the ext4 adapter: `count` blocks from `blockId` on. The precondition holds exactly of the
   * calls that return.
   */
  method Ext4Write(part: Partition, buffer: seq<Byte>, blockId: nat, count: nat)
    returns (r: Result<(), ()>, ghost end: Loop)
    requires part.Valid()
    requires Returns(part.disk.dev.State(), BlockAt(part.ViewOf(), blockId), |buffer|, count * EXT4_BLOCK)
    modifies part, part.disk, part.disk.dev`data
    ensures part.Valid()
    ensures end == Loop(part.disk.dev.State(), part.ViewOf(), buffer, end.total, r.Err?)
    ensures var d, w := old(part.disk.dev.State()), old(BlockAt(part.ViewOf(), blockId));
      && EndsAs(Entry(d, w, buffer), count * EXT4_BLOCK, true, end)
      && Transferred(d, w, buffer, count * EXT4_BLOCK, true, end)
    ensures var d, v := old(part.disk.dev.State()), old(part.ViewOf());
      && (r.Ok? <==> CanTransfer(d, v, blockId, count, |buffer|))
      && (r.Ok? ==> BlocksWritten(d, v.first, blockId, count, buffer, part.disk.dev.State()))
  {
    part.SetPosition(blockId * EXT4_BLOCK);
    r, end := WriteLoop(part, buffer, count * EXT4_BLOCK);
    ghost var d, v := old(part.disk.dev.State()), old(part.ViewOf());
    EndFacts(d, v, buffer, blockId, count, true, end);
    EndsWellIff(d, v, buffer, blockId, count, true, end);
    if r.Ok? {
      WriteIsInPlace(d, v, buffer, blockId, count, end);
    }
  }

  /** `read` of the ext4 adapter, for exactly the calls that return. */
  method Ext4Read(part: Partition, buffer: array<Byte>, blockId: nat, count: nat)
    returns (r: Result<(), ()>, ghost end: Loop)
    requires part.Valid()
    requires Returns(part.disk.dev.State(), BlockAt(part.ViewOf(), blockId), buffer.Length, count * EXT4_BLOCK)
    modifies part, part.disk, buffer
    ensures part.Valid()
    ensures end == Loop(part.disk.dev.State(), part.ViewOf(), buffer[..], end.total, r.Err?)
    ensures var d, w := old(part.disk.dev.State()), old(BlockAt(part.ViewOf(), blockId));
      && EndsAs(Entry(d, w, old(buffer[..])), count * EXT4_BLOCK, false, end)
      && Transferred(d, w, old(buffer[..]), count * EXT4_BLOCK, false, end)
    ensures var d, v := old(part.disk.dev.State()), old(part.ViewOf());
      && (r.Ok? <==> CanTransfer(d, v, blockId, count, buffer.Length))
      && (r.Ok? ==> BlocksRead(d, v.first, blockId, count, old(buffer[..]), buffer[..]))
  {
    ghost var before := buffer[..];
    part.SetPosition(blockId * EXT4_BLOCK);
    r, end := ReadLoop(part, buffer, count * EXT4_BLOCK);
    ghost var d, v := old(part.disk.dev.State()), old(part.ViewOf());
    EndFacts(d, v, before, blockId, count, false, end);
    EndsWellIff(d, v, before, blockId, count, false, end);
    if r.Ok? {
      ReadIsFromPlace(d, v, before, blockId, count, end);
    }
  }

  /** Blocks that were written are read back as written. */
  method Ext4WriteThenRead(part: Partition, bytes: seq<Byte>, buffer: array<Byte>, blockId: nat, count: nat)
    returns (r: Result<(), ()>)
    requires part.Valid() && count * EXT4_BLOCK <= buffer.Length
    requires Returns(part.disk.dev.State(), BlockAt(part.ViewOf(), blockId), |bytes|, count * EXT4_BLOCK)
    modifies part, part.disk, part.disk.dev`data, buffer
    ensures r.Ok? <==> old(CanTransfer(part.disk.dev.State(), part.ViewOf(), blockId, count, |bytes|))
    ensures r.Ok? ==> count * 4096 <= |bytes|
    ensures r.Ok? ==> buffer[..count * 4096] == bytes[..count * 4096]
    ensures r.Ok? ==> buffer[count * 4096..] == old(buffer[count * 4096..])
  {
    ghost var d, v := part.disk.dev.State(), part.ViewOf();
    ghost var end;
    r, end := Ext4Write(part, bytes, blockId, count);
    if r.Ok? {
      ghost var d', before := part.disk.dev.State(), buffer[..];
      CanReadBack(d, v, blockId, count, bytes, d', part.ViewOf(), buffer.Length);
      r, end := Ext4Read(part, buffer, blockId, count);
      ReadBack(d, v.first, blockId, count, bytes, d', before, buffer[..]);
    }
  }

  /** What was written can be read: the sectors are the same ones. */
  lemma {:induction false} CanReadBack(d: Device, v: View, blockId: nat, count: nat, bytes: seq<Byte>, d': Device,
        v': View, len: nat)
    requires CanTransfer(d, v, blockId, count, |bytes|) && BlocksWritten(d, v.first, blockId, count, bytes, d')
    requires v'.first == v.first && v'.count == v.count && count * EXT4_BLOCK <= len
    ensures CanTransfer(d', v', blockId, count, len)
    ensures Returns(d', BlockAt(v', blockId), len, count * EXT4_BLOCK)
  {
    if count > 0 {
      AtItsBlock(v', blockId, count, len);
      forall s: nat | v.first + blockId * 8 <= s < v.first + (blockId + count) * 8 ensures Good(d', s) {
        assert Good(d, s);
      }
    }
  }

  lemma {:induction false} ReadBack(d: Device, first: nat, blockId: nat, count: nat, bytes: seq<Byte>, d': Device,
        before: seq<Byte>, now: seq<Byte>)
    requires BlocksWritten(d, first, blockId, count, bytes, d') && BlocksRead(d', first, blockId, count, before, now)
    ensures var n := count * 4096;
      n <= |bytes| && n <= |now| == |before| && now[..n] == bytes[..n] && now[n..] == before[n..]
  {
  }
}
