/** The disk cursor and the partition window, as objects that share a device. */
module BlockStack {
  import opened Basics
  import opened BlockSpec

  /** The driver below: whole sectors only, failing outside the device and on bad sectors. */
  class BlockDriver {
    var data: seq<Byte>
    const bad: set<nat>

    ghost predicate Valid() reads this {
      |data| % BLOCK == 0
    }

    ghost function State(): Device reads this {
      Device(data, bad)
    }

    constructor (data: seq<Byte>, bad: set<nat>)
      requires |data| % BLOCK == 0
      ensures Valid() && State() == Device(data, bad)
    {
      this.data := data;
      this.bad := bad;
    }

    function NumBlocks(): nat reads this {
      |data| / BLOCK
    }

    method ReadBlock(id: nat, buf: array<Byte>, lo: nat) returns (ok: bool)
      requires Valid() && lo + BLOCK <= buf.Length
      modifies buf
      ensures ok <==> Good(State(), id)
      ensures ok ==> buf[..] == Splice(old(buf[..]), lo, data[id * BLOCK..(id + 1) * BLOCK])
      ensures !ok ==> buf[..] == old(buf[..])
    {
      ok := id < NumBlocks() && id !in bad;
      if ok {
        var sector := data[id * BLOCK..(id + 1) * BLOCK];
        assert Splice(buf[..], lo, sector[..0]) == buf[..];
        for k := 0 to BLOCK
          invariant buf[..] == Splice(old(buf[..]), lo, sector[..k])
        {
          SpliceSnoc(old(buf[..]), lo, sector, k);
          buf[lo + k] := sector[k];
        }
        assert sector[..BLOCK] == sector;
      }
    }

    method WriteBlock(id: nat, src: seq<Byte>) returns (ok: bool)
      requires Valid() && |src| == BLOCK
      modifies this`data
      ensures Valid() && |data| == old(|data|)
      ensures ok <==> old(Good(State(), id))
      ensures ok ==> data == Splice(old(data), id * BLOCK, src)
      ensures !ok ==> data == old(data)
    {
      ok := id < NumBlocks() && id !in bad;
      if ok {
        data := data[..id * BLOCK] + src + data[(id + 1) * BLOCK..];
      }
    }
  }

  /** A byte cursor over a device. */
  class Disk {
    var blockId: nat
    var offset: nat
    const dev: BlockDriver

    ghost predicate Valid() reads this, dev {
      offset < BLOCK && dev.Valid()
    }

    /** `Disk::new`; cloning a disk makes another cursor over the same device. */
    constructor (dev: BlockDriver)
      requires dev.Valid()
      ensures Valid() && this.dev == dev && Position() == 0
    {
      blockId, offset := 0, 0;
      this.dev := dev;
    }

    function Size(): nat reads dev {
      dev.NumBlocks() * BLOCK
    }

    function Position(): nat reads this {
      blockId * BLOCK + offset
    }

    method SetPosition(pos: nat)
      requires Valid()
      modifies this
      ensures Valid() && Position() == pos
    {
      blockId := pos / BLOCK;
      offset := pos % BLOCK;
    }

    /** `read_one`: at most the rest of a sector goes to `buf[lo..hi]`. */
    method ReadOne(buf: array<Byte>, lo: nat, hi: nat) returns (r: Result<nat, ()>)
      requires Valid() && lo <= hi <= buf.Length
      modifies this, buf
      ensures Valid()
      ensures r.Ok? <==> Good(dev.State(), old(Position()) / BLOCK)
      ensures r.Ok? ==>
        var at, n := old(Position()), Chunk(old(Position()), hi - lo);
        r.value == n && Position() == at + n && at + n <= |dev.data|
        && buf[..] == Splice(old(buf[..]), lo, dev.data[at..at + n])
      ensures r.Err? ==> Position() == old(Position()) && buf[..] == old(buf[..])
    {
      CursorSplit(blockId, offset);
      r := ReadHere(buf, lo, hi);
    }

    /** The same in terms of the sector and the offset in it. */
    method ReadHere(buf: array<Byte>, lo: nat, hi: nat) returns (r: Result<nat, ()>)
      requires Valid() && lo <= hi <= buf.Length
      modifies this, buf
      ensures Valid()
      ensures r.Ok? <==> Good(dev.State(), old(blockId))
      ensures r.Ok? ==>
        var at, n := old(Position()), Min(hi - lo, BLOCK - old(offset));
        r.value == n && Position() == at + n && at + n <= |dev.data|
        && buf[..] == Splice(old(buf[..]), lo, dev.data[at..at + n])
      ensures r.Err? ==> Position() == old(Position()) && buf[..] == old(buf[..])
    {
      if offset == 0 && hi - lo >= BLOCK {
        var ok := dev.ReadBlock(blockId, buf, lo);
        if !ok { return Err(()); }
        blockId := blockId + 1;
        r := Ok(BLOCK);
      } else {
        var start, count := offset, Min(hi - lo, BLOCK - offset);
        var ok := ReadPart(buf, lo, start, count);
        if !ok { return Err(()); }
        offset := offset + count;
        if offset >= BLOCK {
          blockId := blockId + 1;
          offset := offset - BLOCK;
        }
        r := Ok(count);
      }
    }

    /** Part of the current sector is read, changed and written back whole. */
    method WritePart(start: nat, src: seq<Byte>) returns (ok: bool)
      requires Valid() && start + |src| <= BLOCK
      modifies dev`data
      ensures Valid() && |dev.data| == old(|dev.data|)
      ensures ok <==> old(Good(dev.State(), blockId))
      ensures ok ==>
        var at := blockId * BLOCK + start;
        at + |src| <= |dev.data| && dev.data == Splice(old(dev.data), at, src)
      ensures !ok ==> dev.data == old(dev.data)
    {
      var data := new Byte[BLOCK](_ => 0);
      label before:
      ok := dev.ReadBlock(blockId, data, 0);
      if ok {
        ghost var at := blockId * BLOCK;
        SpliceAll(old@before(data[..]), dev.data[at..at + BLOCK]);
        var sector := data[..start] + src + data[start + |src|..];
        SpliceNested(dev.data, at, at + BLOCK, start, src);
        ok := dev.WriteBlock(blockId, sector);
      }
    }

    /** Part of the current sector, by way of a sector buffer. */
    method ReadPart(buf: array<Byte>, lo: nat, start: nat, count: nat) returns (ok: bool)
      requires Valid() && start + count <= BLOCK && lo + count <= buf.Length
      modifies buf
      ensures ok <==> Good(dev.State(), blockId)
      ensures ok ==>
        var at := blockId * BLOCK + start;
        at + count <= |dev.data| && buf[..] == Splice(old(buf[..]), lo, dev.data[at..at + count])
      ensures !ok ==> buf[..] == old(buf[..])
    {
      var data := new Byte[BLOCK](_ => 0);
      label before:
      ok := dev.ReadBlock(blockId, data, 0);
      if ok {
        ghost var at := blockId * BLOCK;
        SpliceAll(old@before(data[..]), dev.data[at..at + BLOCK]);
        SliceInside(dev.data, at, at + BLOCK, start, count);
        assert data[start..start + count] == data[..][start..start + count];
        CopyFrom(buf, lo, data, start, count);
      }
    }

    /** `write_one`: at most the rest of a sector is taken from `src`. */
    method WriteOne(src: seq<Byte>) returns (r: Result<nat, ()>)
      requires Valid()
      modifies this, dev`data
      ensures Valid() && |dev.data| == old(|dev.data|)
      ensures r.Ok? <==> old(Good(dev.State(), Position() / BLOCK))
      ensures r.Ok? ==>
        var at, n := old(Position()), Chunk(old(Position()), |src|);
        r.value == n && Position() == at + n && at + n <= |dev.data|
        && dev.data == Splice(old(dev.data), at, src[..n])
      ensures r.Err? ==> Position() == old(Position()) && dev.data == old(dev.data)
    {
      CursorSplit(blockId, offset);
      if offset == 0 && |src| >= BLOCK {
        var ok := dev.WriteBlock(blockId, src[..BLOCK]);
        if !ok { return Err(()); }
        blockId := blockId + 1;
        r := Ok(BLOCK);
      } else {
        var start, count := offset, Min(|src|, BLOCK - offset);
        var ok := WritePart(start, src[..count]);
        if !ok { return Err(()); }
        offset := offset + count;
        if offset >= BLOCK {
          blockId := blockId + 1;
          offset := offset - BLOCK;
        }
        r := Ok(count);
      }
    }
  }

  /** A whole buffer replaced is the replacement. */
  lemma {:induction false} SpliceAll(s: seq<Byte>, src: seq<Byte>)
    requires |s| == |src|
    ensures Splice(s, 0, src) == src
  {
  }

  /** One more byte of a copy. */
  lemma {:induction false} SpliceSnoc(s: seq<Byte>, at: nat, src: seq<Byte>, k: nat)
    requires k < |src| && at + |src| <= |s|
    ensures Splice(s, at, src[..k + 1]) == Splice(s, at, src[..k])[at + k := src[k]]
  {
    var a, b := Splice(s, at, src[..k + 1]), Splice(s, at, src[..k])[at + k := src[k]];
    assert |a| == |b|;
    assert forall i :: 0 <= i < |a| ==> a[i] == b[i];
  }

  lemma {:induction false} CursorSplit(blockId: nat, offset: nat)
    requires offset < BLOCK
    ensures (blockId * BLOCK + offset) / BLOCK == blockId && (blockId * BLOCK + offset) % BLOCK == offset
  {
  }

  lemma {:induction false} SpliceNested(s: seq<Byte>, from: nat, to: nat, at: nat, src: seq<Byte>)
    requires from <= to <= |s| && at + |src| <= to - from
    ensures Splice(s, from, Splice(s[from..to], at, src)) == Splice(s, from + at, src)
  {
  }

  method CopyFrom(buf: array<Byte>, lo: nat, data: array<Byte>, start: nat, count: nat)
    requires lo + count <= buf.Length && start + count <= data.Length && buf != data
    modifies buf
    ensures buf[..] == Splice(old(buf[..]), lo, data[start..start + count])
  {
    ghost var src := data[start..start + count];
    assert Splice(buf[..], lo, src[..0]) == buf[..];
    for k := 0 to count
      invariant buf[..] == Splice(old(buf[..]), lo, src[..k])
      invariant data[start..start + count] == src
    {
      SpliceSnoc(old(buf[..]), lo, src, k);
      assert data[start + k] == src[k];
      buf[lo + k] := data[start + k];
    }
    assert src[..count] == src;
  }

  /** A window of a device, with its own cursor. */
  class Partition {
    const disk: Disk
    const startLba: nat
    const endLba: nat
    var position: nat

    ghost predicate Valid() reads this, disk, disk.dev {
      startLba <= endLba && position <= Size() && disk.Valid()
    }

    ghost function ViewOf(): View reads this
      requires startLba <= endLba
    {
      View(startLba, endLba - startLba + 1, position)
    }

    constructor (disk: Disk, startLba: nat, endLba: nat)
      requires disk.Valid()
      ensures this.disk == disk && this.startLba == startLba && this.endLba == endLba
      ensures startLba <= endLba ==> Valid() && ViewOf() == View(startLba, endLba - startLba + 1, 0)
    {
      this.disk := disk;
      this.startLba, this.endLba := startLba, endLba;
      position := 0;
    }

    function Size(): nat
      requires startLba <= endLba
    {
      (endLba - startLba + 1) * BLOCK
    }

    method SetPosition(pos: nat)
      requires Valid()
      modifies this
      ensures Valid()
      ensures Next(disk.dev.State(), ViewOf(), Moved) == old(Step(disk.dev.State(), ViewOf(), Seek(pos)))
    {
      position := Min(pos, Size());
    }

    /** Up to the end of the sector and of the window, into `buf[lo..hi]`. */
    method ReadWindow(buf: array<Byte>, lo: nat, hi: nat) returns (r: Result<nat, ()>)
      requires Valid() && lo <= hi <= buf.Length
      modifies this, disk, buf
      ensures Valid()
      ensures var v, d := old(ViewOf()), disk.dev.State();
        var at, n := v.Absolute(), WindowChunk(v, hi - lo);
        if v.position >= v.Size() || Good(d, at / BLOCK) then
          && r == Ok(n) && n <= hi - lo && ViewOf() == Advance(v, n)
          && (n > 0 ==> at + n <= |d.data| && buf[..] == Splice(old(buf[..]), lo, d.data[at..at + n]))
          && (n == 0 ==> buf[..] == old(buf[..]))
        else r.Err? && ViewOf() == v && buf[..] == old(buf[..])
    {
      if position >= Size() {
        return Ok(0);
      }
      AbsoluteSector(ViewOf());
      var toRead := Min(hi - lo, Size() - position);
      disk.SetPosition(startLba * BLOCK + position);
      r := disk.ReadOne(buf, lo, lo + toRead);
      if r.Ok? {
        if r.value == 0 { SpliceNothing(old(buf[..]), lo); }
        position := position + r.value;
      }
    }

    /** Up to the end of the sector and of the window. */
    method WriteWindow(src: seq<Byte>) returns (r: Result<nat, ()>)
      requires Valid()
      modifies this, disk, disk.dev`data
      ensures Valid()
      ensures var v, d, d' := old(ViewOf()), old(disk.dev.State()), disk.dev.State();
        var at, n := v.Absolute(), WindowChunk(v, |src|);
        if v.position >= v.Size() || Good(d, at / BLOCK) then
          && r == Ok(n) && n <= |src| && ViewOf() == Advance(v, n)
          && (n > 0 ==> at + n <= |d.data| && d' == d.(data := Splice(d.data, at, src[..n])))
          && (n == 0 ==> d' == d)
        else r.Err? && ViewOf() == v && d' == d
    {
      if position >= Size() {
        return Ok(0);
      }
      AbsoluteSector(ViewOf());
      var toWrite := Min(|src|, Size() - position);
      disk.SetPosition(startLba * BLOCK + position);
      r := disk.WriteOne(src[..toWrite]);
      if r.Ok? {
        assert src[..toWrite][..r.value] == src[..r.value];
        if r.value == 0 { SpliceNothing(old(disk.dev.data), old(ViewOf()).Absolute()); }
        position := position + r.value;
      }
    }

    /** `read_one` carries out the `Read` step of the window. */
    method ReadOne(buf: array<Byte>, lo: nat, hi: nat) returns (r: Result<nat, ()>)
      requires Valid() && lo <= hi <= buf.Length
      modifies this, disk, buf
      ensures Valid()
      ensures var s := old(Step(disk.dev.State(), ViewOf(), Read(hi - lo)));
        && s.device == disk.dev.State() && s.view == ViewOf()
        && (s.outcome.Failed? ==> r.Err? && buf[..] == old(buf[..]))
        && (s.outcome.Got? ==>
              && r == Ok(|s.outcome.bytes|) && |s.outcome.bytes| <= hi - lo
              && buf[..] == Splice(old(buf[..]), lo, s.outcome.bytes))
    {
      r := ReadWindow(buf, lo, hi);
      SpliceNothing(old(buf[..]), lo);
    }

    /** `write_one` carries out the `Write` step of the window. */
    method WriteOne(src: seq<Byte>) returns (r: Result<nat, ()>)
      requires Valid()
      modifies this, disk, disk.dev`data
      ensures Valid()
      ensures var s := old(Step(disk.dev.State(), ViewOf(), Write(src)));
        && s.device == disk.dev.State() && s.view == ViewOf()
        && (s.outcome.Failed? ==> r.Err?)
        && (s.outcome.Wrote? ==> r == Ok(s.outcome.n))
    {
      r := WriteWindow(src);
      if old(position < Size() && Good(disk.dev.State(), ViewOf().Absolute() / BLOCK)) {
        FitsSector(old(disk.dev.State()), old(ViewOf()).Absolute(), 0);
        SpliceNothing(old(disk.dev.data), old(ViewOf()).Absolute());
      }
    }
  }

  lemma {:induction false} SpliceAtStart(before: seq<Byte>, now: seq<Byte>, n: nat)
    requires n <= |now|
    ensures forall bytes: seq<Byte> :: |bytes| == n <= |before| && now == Splice(before, 0, bytes) ==> now[..n] == bytes
  {
  }

  lemma {:induction false} SpliceNothing(s: seq<Byte>, at: nat)
    requires at <= |s|
    ensures Splice(s, at, []) == s && s[at..at] == []
  {
  }

  // ---- two windows on one device

  /** One operation of a window, as the step it carries out. */
  method RunOp(p: Partition, op: Op) returns (o: Outcome)
    requires p.Valid()
    modifies p, p.disk, p.disk.dev`data
    ensures p.Valid()
    ensures Next(p.disk.dev.State(), p.ViewOf(), o) == old(Step(p.disk.dev.State(), p.ViewOf(), op))
  {
    match op {
      case Seek(pos) =>
        p.SetPosition(pos);
        o := Moved;
      case Read(len) =>
        var buf := new Byte[len](_ => 0);
        ghost var before := buf[..];
        var one := p.ReadOne(buf, 0, len);
        if one.Ok? { SpliceAtStart(before, buf[..], one.value); }
        o := if one.Ok? then Got(buf[..one.value]) else Failed;
      case Write(bytes) =>
        var one := p.WriteOne(bytes);
        o := if one.Ok? then Wrote(one.value) else Failed;
    }
  }

  /** What is still to come of a run, behind what was seen so far. */
  ghost function After(outA: seq<Outcome>, outB: seq<Outcome>, rest: Shared): Shared {
    rest.(outA := outA + rest.outA, outB := outB + rest.outB)
  }

  /** Two windows over one driver carry out every interleaving of their operations. */
  method RunBoth(a: Partition, b: Partition, script: seq<(bool, Op)>)
    returns (outA: seq<Outcome>, outB: seq<Outcome>)
    requires a.Valid() && b.Valid() && a != b && a.disk.dev == b.disk.dev
    modifies a, b, a.disk, b.disk, a.disk.dev`data
    ensures a.Valid() && b.Valid()
    ensures Shared(a.disk.dev.State(), a.ViewOf(), b.ViewOf(), outA, outB)
      == old(RunShared(a.disk.dev.State(), a.ViewOf(), b.ViewOf(), script))
  {
    outA, outB := [], [];
    ghost var whole := RunShared(a.disk.dev.State(), a.ViewOf(), b.ViewOf(), script);
    assert script[0..] == script;
    for i := 0 to |script|
      invariant a.Valid() && b.Valid()
      invariant whole == After(outA, outB, RunShared(a.disk.dev.State(), a.ViewOf(), b.ViewOf(), script[i..]))
    {
      ghost var rest := script[i..];
      assert rest[1..] == script[i + 1..] && rest[0] == script[i];
      ghost var d, va, vb := a.disk.dev.State(), a.ViewOf(), b.ViewOf();
      SharedStep(d, va, vb, rest, outA, outB);
      if script[i].0 {
        var o := RunOp(a, script[i].1);
        outA := outA + [o];
      } else {
        var o := RunOp(b, script[i].1);
        outB := outB + [o];
      }
    }
  }

  lemma {:induction false} SharedStep(d: Device, a: View, b: View, script: seq<(bool, Op)>, outA: seq<Outcome>,
        outB: seq<Outcome>)
    requires script != []
    ensures var s := Step(d, if script[0].0 then a else b, script[0].1);
      After(outA, outB, RunShared(d, a, b, script)) ==
        if script[0].0 then After(outA + [s.outcome], outB, RunShared(s.device, s.view, b, script[1..]))
        else After(outA, outB + [s.outcome], RunShared(s.device, a, s.view, script[1..]))
  {
    var s := Step(d, if script[0].0 then a else b, script[0].1);
    if script[0].0 {
      Assoc(outA, [s.outcome], RunShared(s.device, s.view, b, script[1..]).outA);
    } else {
      Assoc(outB, [s.outcome], RunShared(s.device, a, s.view, script[1..]).outB);
    }
  }
}
