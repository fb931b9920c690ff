/** The loops that filesystems run over a disk or a partition. */
module BlockAdapters {
  import opened Basics
  import opened BlockSpec
  import opened BlockStack

  /** Every sector that holds a byte of `[from, to)` can be transferred. */
  ghost predicate AllGood(d: Device, from: nat, to: nat) {
    from < to ==> forall s: nat :: from / BLOCK <= s && s * BLOCK < to ==> Good(d, s)
  }

  lemma {:induction false} AllGoodExtend(d: Device, from: nat, mid: nat, n: nat)
    requires from <= mid && AllGood(d, from, mid) && Good(d, mid / BLOCK) && n <= BLOCK - mid % BLOCK
    ensures AllGood(d, from, mid + n)
  {
    forall s: nat | from / BLOCK <= s && s * BLOCK < mid + n ensures Good(d, s) {
      if s * BLOCK >= mid {
        assert s == mid / BLOCK;
      } else if from == mid {
        assert s == mid / BLOCK;
      }
    }
  }

  lemma {:induction false} AllGoodFails(d: Device, from: nat, mid: nat, to: nat)
    requires from <= mid < to && !Good(d, mid / BLOCK)
    ensures !AllGood(d, from, to)
  {
    var s := mid / BLOCK;
    assert from / BLOCK <= s && s * BLOCK < to;
  }

  // ---- what a loop has moved so far

  /** `now` is `before` with the `k` device bytes from `at` on at its start, all from good sectors. */
  ghost predicate ReadTo(d: Device, at: nat, before: seq<Byte>, now: seq<Byte>, k: nat) {
    && AllGood(d, at, at + k) && |now| == |before| && k <= |now| && (k > 0 ==> at + k <= |d.data|)
    && forall i :: 0 <= i < |now| ==> now[i] == if i < k then d.data[at + i] else before[i]
  }

  /** `d'` is `d` with the first `k` bytes of `src` from `at` on, all in good sectors. */
  ghost predicate WrittenTo(d: Device, at: nat, d': Device, src: seq<Byte>, k: nat) {
    && AllGood(d, at, at + k) && d'.bad == d.bad && |d'.data| == |d.data| && k <= |src|
    && (k > 0 ==> at + k <= |d.data|)
    && forall i :: 0 <= i < |d.data| ==> d'.data[i] == if at <= i < at + k then src[i - at] else d.data[i]
  }

  /** One more chunk read. */
  lemma {:induction false} ReadToStep(d: Device, at: nat, before: seq<Byte>, now: seq<Byte>, k: nat, n: nat,
        now': seq<Byte>)
    requires ReadTo(d, at, before, now, k) && Good(d, (at + k) / BLOCK) && n <= BLOCK - (at + k) % BLOCK
    requires at + k + n <= |d.data| && k + n <= |now| && now' == Splice(now, k, d.data[at + k..at + k + n])
    ensures ReadTo(d, at, before, now', k + n)
  {
    AllGoodExtend(d, at, at + k, n);
  }

  /** One more chunk written. */
  lemma {:induction false} WrittenToStep(d: Device, at: nat, d': Device, src: seq<Byte>, k: nat, n: nat, d'': Device)
    requires WrittenTo(d, at, d', src, k) && Good(d, (at + k) / BLOCK) && n <= BLOCK - (at + k) % BLOCK
    requires at + k + n <= |d.data| && k + n <= |src|
    requires d'' == d'.(data := Splice(d'.data, at + k, src[k..k + n]))
    ensures WrittenTo(d, at, d'', src, k + n)
  {
    AllGoodExtend(d, at, at + k, n);
  }

  /** One `read_one` of the loop: at least one byte more, or the sector under the cursor is bad. */
  method ReadSome(disk: Disk, buf: array<Byte>, lo: nat, ghost at: nat, ghost before: seq<Byte>)
    returns (r: Result<nat, ()>)
    requires disk.Valid() && lo < buf.Length && disk.Position() == at + lo
    requires ReadTo(disk.dev.State(), at, before, buf[..], lo)
    modifies disk, buf
    ensures disk.Valid() && (r.Ok? <==> Good(disk.dev.State(), (at + lo) / BLOCK))
    ensures r.Ok? ==> 0 < r.value <= buf.Length - lo && disk.Position() == at + lo + r.value
    ensures r.Ok? ==> ReadTo(disk.dev.State(), at, before, buf[..], lo + r.value)
  {
    ghost var now := buf[..];
    r := disk.ReadOne(buf, lo, buf.Length);
    if r.Ok? {
      ReadToStep(disk.dev.State(), at, before, now, lo, r.value, buf[..]);
    }
  }

  /** `read_exact` of partition.rs: the whole buffer is filled from the cursor, or a sector fails. */
  method ReadExact(disk: Disk, buf: array<Byte>) returns (r: Result<(), ()>)
    requires disk.Valid()
    modifies disk, buf
    ensures disk.Valid()
    ensures var at, d := old(disk.Position()), disk.dev.State();
      && (r.Ok? <==> AllGood(d, at, at + buf.Length))
      && (r.Ok? ==> disk.Position() == at + buf.Length && ReadTo(d, at, old(buf[..]), buf[..], buf.Length))
  {
    var lo := 0;
    ghost var at, d, before := disk.Position(), disk.dev.State(), buf[..];
    while lo < buf.Length
      invariant disk.Valid() && disk.dev.State() == d
      invariant 0 <= lo <= buf.Length && disk.Position() == at + lo
      invariant ReadTo(d, at, before, buf[..], lo)
      decreases buf.Length - lo
    {
      var one := ReadSome(disk, buf, lo, at, before);
      if one.Err? {
        AllGoodFails(d, at, at + lo, at + buf.Length);
        return Err(());
      }
      if one.value == 0 { break; }
      lo := lo + one.value;
    }
    r := Ok(());
  }

  // ---- one transfer after another

  /** Bytes between the cursor and the end of the window, up to `len`. */
  function Available(v: View, len: nat): nat {
    if v.position >= v.Size() then 0 else Min(len, v.Size() - v.position)
  }

  /** What a transfer can move after `k` bytes: what is available, within a sector, nothing only at the end. */
  lemma {:induction false} ChunkFacts(v: View, k: nat, len: nat)
    requires k <= Available(v, len)
    ensures var n := WindowChunk(Advance(v, k), len - k);
      && k + n <= Available(v, len) && (n == 0 <==> k == Available(v, len))
      && n <= BLOCK - (v.Absolute() + k) % BLOCK
  {
    AbsoluteSector(Advance(v, k));
  }

  /** A reading loop's next step, before the end, in a good sector. */
  lemma {:induction false} ReadMore(d: Device, v: View, before: seq<Byte>, now: seq<Byte>, k: nat, bytes: seq<Byte>,
        now': seq<Byte>)
    requires ReadTo(d, v.Absolute(), before, now, k) && k < Available(v, |now|)
    requires Step(d, Advance(v, k), Read(|now| - k)).outcome == Got(bytes)
    requires k + |bytes| <= |now| && now' == Splice(now, k, bytes)
    ensures ReadTo(d, v.Absolute(), before, now', k + |bytes|)
  {
    BytesGot(d, Advance(v, k), |now| - k, bytes);
    assert Advance(v, k).Absolute() == v.Absolute() + k;
    ReadToStep(d, v.Absolute(), before, now, k, |bytes|, now');
  }

  lemma {:induction false} BytesGot(d: Device, w: View, len: nat, bytes: seq<Byte>)
    requires w.position < w.Size() && Step(d, w, Read(len)).outcome == Got(bytes)
    ensures var at, n := w.Absolute(), |bytes|;
      && Good(d, at / BLOCK) && n <= BLOCK - at % BLOCK && at + n <= |d.data| && bytes == d.data[at..at + n]
  {
    ReadInWindow(d, w, len);
  }

  /** How much a step moves, and where that leaves the view. */
  lemma {:induction false} StepMoves(d: Device, v: View, op: Op, k: nat, len: nat)
    requires k <= Available(v, len) && (op == Read(len - k) || (op.Write? && |op.bytes| == len - k))
    ensures var s, n := Step(d, Advance(v, k), op), WindowChunk(Advance(v, k), len - k);
      if s.outcome.Failed? then
        s == Next(d, Advance(v, k), Failed) && v.position + k < v.Size() && !Good(d, (v.Absolute() + k) / BLOCK)
      else
        && s.view == Advance(v, k + n) && k + n <= Available(v, len) && (n == 0 <==> k == Available(v, len))
        && (s.outcome.Got? ==> |s.outcome.bytes| == n) && (s.outcome.Wrote? ==> s.outcome.n == n)
        && (s.outcome.Got? <==> op.Read?) && (s.outcome.Wrote? <==> op.Write?)
  {
    ChunkFacts(v, k, len);
    assert Advance(v, k).Absolute() == v.Absolute() + k;
  }

  lemma {:induction false} WriteMore(d: Device, v: View, d': Device, src: seq<Byte>, k: nat)
    requires WrittenTo(d, v.Absolute(), d', src, k) && k < Available(v, |src|)
    requires Step(d', Advance(v, k), Write(src[k..])).outcome.Wrote?
    ensures var s := Step(d', Advance(v, k), Write(src[k..]));
      k + s.outcome.n <= |src| && WrittenTo(d, v.Absolute(), s.device, src, k + s.outcome.n)
  {
    var s := Step(d', Advance(v, k), Write(src[k..]));
    WriteInWindow(d', Advance(v, k), src[k..]);
    assert src[k..][..s.outcome.n] == src[k..k + s.outcome.n];
    WrittenToStep(d, v.Absolute(), d', src, k, s.outcome.n, s.device);
  }

  /** One iteration of a reading loop that has moved `k` bytes through the window. */
  lemma {:induction false} ReadLoopStep(d: Device, v: View, before: seq<Byte>, now: seq<Byte>, k: nat, s: Next,
        now': seq<Byte>)
    requires ReadTo(d, v.Absolute(), before, now, k) && k <= Available(v, |now|)
    requires s == Step(d, Advance(v, k), Read(|now| - k))
    requires s.outcome.Got? ==> k + |s.outcome.bytes| <= |now| && now' == Splice(now, k, s.outcome.bytes)
    ensures s.outcome.Got? || s.outcome.Failed?
    ensures s.outcome.Got? ==>
      var n := |s.outcome.bytes|;
      && n == WindowChunk(Advance(v, k), |now| - k)
      && s.view == Advance(v, k + n) && ReadTo(d, v.Absolute(), before, now', k + n)
      && k + n <= Available(v, |now|) && (n == 0 <==> k == Available(v, |now|))
    ensures s.outcome.Failed? ==>
      s.view == Advance(v, k) && v.position + k < v.Size() && !Good(d, (v.Absolute() + k) / BLOCK)
  {
    StepMoves(d, v, Read(|now| - k), k, |now|);
    if s.outcome.Got? {
      if k < Available(v, |now|) {
        ReadMore(d, v, before, now, k, s.outcome.bytes, now');
      } else {
        assert Splice(now, k, []) == now;
      }
    }
  }

  /** One iteration of a writing loop that has moved `k` bytes through the window. */
  lemma {:induction false} WriteLoopStep(d: Device, v: View, d': Device, src: seq<Byte>, k: nat, s: Next)
    requires WrittenTo(d, v.Absolute(), d', src, k) && k <= Available(v, |src|)
    requires s == Step(d', Advance(v, k), Write(src[k..]))
    ensures s.outcome.Wrote? || s.outcome.Failed?
    ensures s.outcome.Wrote? ==>
      var n := s.outcome.n;
      && n == WindowChunk(Advance(v, k), |src| - k)
      && s.view == Advance(v, k + n) && WrittenTo(d, v.Absolute(), s.device, src, k + n)
      && k + n <= Available(v, |src|) && (n == 0 <==> k == Available(v, |src|))
    ensures s.outcome.Failed? ==>
      && s.device == d' && s.view == Advance(v, k) && v.position + k < v.Size()
      && !Good(d, (v.Absolute() + k) / BLOCK)
  {
    StepMoves(d', v, Write(src[k..]), k, |src|);
    if s.outcome.Wrote? {
      if k < Available(v, |src|) {
        WriteMore(d, v, d', src, k);
      } else if v.position + k < v.Size() {
        FitsSector(d', v.Absolute() + k, 0);
        SpliceNothing(d'.data, v.Absolute() + k);
      }
    }
  }

  /** What a transfer loop carries from one iteration to the next; `failed` marks the error return. */
  datatype Loop = Loop(device: Device, view: View, buffer: seq<Byte>, total: nat, failed: bool)

  predicate Ended(s: Loop, todo: nat) {
    s.failed || s.total >= todo
  }

  lemma {:induction false} StepBound(d: Device, v: View, rest: seq<Byte>)
    ensures var w := Step(d, v, Write(rest)).outcome; w.Wrote? ==> w.n <= |rest|
    ensures var r := Step(d, v, Read(|rest|)).outcome; r.Got? ==> |r.bytes| <= |rest|
    ensures !Step(d, v, Write(rest)).outcome.Got? && !Step(d, v, Read(|rest|)).outcome.Wrote?
  {
  }

  /** One iteration: the rest of the buffer goes to `write_one` or `read_one`, and the count is added up. */
  function Turn(s: Loop, write: bool): (s': Loop)
    requires s.total <= |s.buffer|
    ensures s'.total <= |s'.buffer| == |s.buffer|
  {
    var rest := s.buffer[s.total..];
    var t := Step(s.device, s.view, if write then Write(rest) else Read(|rest|));
    StepBound(s.device, s.view, rest);
    match t.outcome
    case Got(bytes) => Loop(t.device, t.view, Splice(s.buffer, s.total, bytes), s.total + |bytes|, false)
    case Wrote(n) => Loop(t.device, t.view, s.buffer, s.total + n, false)
    case _ => s.(failed := true)
  }

  function Entry(d: Device, v: View, buffer: seq<Byte>): (s: Loop)
    ensures s.total <= |s.buffer|
  {
    Loop(d, v, buffer, 0, false)
  }

  /** A failed loop stands on a bad sector inside the window. */
  ghost predicate Tracks(d: Device, v: View, buffer: seq<Byte>, write: bool, s: Loop) {
    && s.view == Advance(v, s.total) && s.total <= Available(v, |buffer|)
    && (if write then s.buffer == buffer && WrittenTo(d, v.Absolute(), s.device, buffer, s.total)
        else s.device == d && ReadTo(d, v.Absolute(), buffer, s.buffer, s.total))
    && (s.failed ==> v.position + s.total < v.Size() && !Good(d, (v.Absolute() + s.total) / BLOCK))
  }

  lemma {:induction false} EntryTracks(d: Device, v: View, buffer: seq<Byte>, write: bool)
    ensures Tracks(d, v, buffer, write, Entry(d, v, buffer))
  {
  }

  /** An iteration moves bytes on, or fails on a bad sector, or finds the window or the buffer used up. */
  lemma {:induction false} TurnTracks(d: Device, v: View, buffer: seq<Byte>, write: bool, s: Loop)
    requires Tracks(d, v, buffer, write, s) && !s.failed
    ensures s.total <= |s.buffer| && Tracks(d, v, buffer, write, Turn(s, write))
    ensures Turn(s, write).failed || Turn(s, write).total > s.total || s.total == Available(v, |buffer|)
  {
    var rest, t := s.buffer[s.total..], Turn(s, write);
    if write {
      WriteLoopStep(d, v, s.device, buffer, s.total, Step(s.device, s.view, Write(rest)));
    } else {
      ReadLoopStep(d, v, buffer, s.buffer, s.total, Step(s.device, s.view, Read(|rest|)), t.buffer);
    }
  }

  /** `s'` is `s` with `bytes` read into its buffer. */
  predicate ReadsTo(s: Loop, view: View, bytes: seq<Byte>, s': Loop) {
    && s.total + |bytes| <= |s.buffer|
    && s' == Loop(s.device, view, Splice(s.buffer, s.total, bytes), s.total + |bytes|, false)
  }

  /** The buffer and the view after one read. */
  lemma {:induction false} TurnReads(s: Loop, len: nat)
    requires s.total <= |s.buffer| && len == |s.buffer| - s.total && !s.failed
    ensures var t := Step(s.device, s.view, Read(len));
      && t.device == s.device && (t.outcome.Failed? || t.outcome.Got?)
      && (t.outcome.Failed? ==> t.view == s.view && Turn(s, false) == s.(failed := true))
      && (t.outcome.Got? ==> ReadsTo(s, t.view, t.outcome.bytes, Turn(s, false)))
  {
    assert |s.buffer[s.total..]| == len;
    StepBound(s.device, s.view, s.buffer[s.total..]);
  }

  /** The device and the view after one write. */
  lemma {:induction false} TurnWrites(s: Loop)
    requires s.total <= |s.buffer| && !s.failed
    ensures var t := Step(s.device, s.view, Write(s.buffer[s.total..]));
      && (t.outcome.Failed? || t.outcome.Wrote?)
      && (t.outcome.Failed? ==> t.device == s.device && t.view == s.view && Turn(s, true) == s.(failed := true))
      && (t.outcome.Wrote? ==> Turn(s, true) == Loop(t.device, t.view, s.buffer, s.total + t.outcome.n, false))
  {
    StepBound(s.device, s.view, s.buffer[s.total..]);
  }

  /** One read into the rest of a buffer carries out one turn. */
  method ReadTurn(part: Partition, buffer: array<Byte>, total: nat, ghost s: Loop)
    returns (r: Result<nat, ()>, ghost s': Loop)
    requires part.Valid() && total <= buffer.Length
    requires s == Loop(part.disk.dev.State(), part.ViewOf(), buffer[..], total, false)
    modifies part, part.disk, buffer
    ensures part.Valid() && part.disk.dev.State() == old(part.disk.dev.State())
    ensures s' == Turn(s, false) == Loop(s.device, part.ViewOf(), buffer[..], s'.total, r.Err?)
    ensures r.Ok? ==> s'.total == total + r.value
  {
    TurnReads(s, buffer.Length - total);
    s' := Turn(s, false);
    r := part.ReadOne(buffer, total, buffer.Length);
  }

  /** One write of the rest of a buffer carries out one turn. */
  method WriteTurn(part: Partition, buffer: seq<Byte>, total: nat, ghost s: Loop)
    returns (r: Result<nat, ()>, ghost s': Loop)
    requires part.Valid() && total <= |buffer|
    requires s == Loop(part.disk.dev.State(), part.ViewOf(), buffer, total, false)
    modifies part, part.disk, part.disk.dev`data
    ensures part.Valid()
    ensures s' == Turn(s, true) == Loop(part.disk.dev.State(), part.ViewOf(), buffer, s'.total, r.Err?)
    ensures r.Ok? ==> s'.total == total + r.value
  {
    TurnWrites(s);
    s' := Turn(s, true);
    r := part.WriteOne(buffer[total..]);
  }

  // ---- the FAT adapter

  /** Every sector that a FAT transfer of up to `len` bytes touches is good. */
  ghost predicate Transfers(d: Device, v: View, len: nat) {
    AllGood(d, v.Absolute(), v.Absolute() + Available(v, len))
  }

  /** A bad sector stopped the loop after `k` of `total` bytes. */
  ghost predicate ReadStoppedAt(d: Device, v: View, before: seq<Byte>, now: seq<Byte>, v': View, total: nat, k: nat) {
    && k < total && !Good(d, (v.Absolute() + k) / BLOCK) && v' == Advance(v, k)
    && ReadTo(d, v.Absolute(), before, now, k)
  }

  lemma {:induction false} ReadStops(d: Device, v: View, before: seq<Byte>, now: seq<Byte>, k: nat)
    requires ReadTo(d, v.Absolute(), before, now, k) && k < Available(v, |now|)
    requires !Good(d, (v.Absolute() + k) / BLOCK)
    ensures !Transfers(d, v, |now|)
    ensures ReadStoppedAt(d, v, before, now, Advance(v, k), Available(v, |now|), k)
  {
    AllGoodFails(d, v.Absolute(), v.Absolute() + k, v.Absolute() + Available(v, |now|));
  }

  ghost predicate WriteStoppedAt(d: Device, v: View, d': Device, src: seq<Byte>, v': View, total: nat, k: nat) {
    && k < total && !Good(d, (v.Absolute() + k) / BLOCK) && v' == Advance(v, k)
    && WrittenTo(d, v.Absolute(), d', src, k)
  }

  lemma {:induction false} WriteStops(d: Device, v: View, d': Device, src: seq<Byte>, k: nat)
    requires WrittenTo(d, v.Absolute(), d', src, k) && k < Available(v, |src|)
    requires !Good(d, (v.Absolute() + k) / BLOCK)
    ensures !Transfers(d, v, |src|)
    ensures WriteStoppedAt(d, v, d', src, Advance(v, k), Available(v, |src|), k)
  {
    AllGoodFails(d, v.Absolute(), v.Absolute() + k, v.Absolute() + Available(v, |src|));
  }

  /** `read` of the FAT partition wrapper: all that is available, or a bad sector ends it early. */
  method FatRead(part: Partition, buf: array<Byte>) returns (r: Result<nat, ()>)
    requires part.Valid()
    modifies part, part.disk, buf
    ensures part.Valid()
    ensures var v, d := old(part.ViewOf()), part.disk.dev.State();
      var total, at := Available(v, buf.Length), v.Absolute();
      && (r.Ok? <==> Transfers(d, v, buf.Length))
      && (r.Ok? ==> r.value == total && part.ViewOf() == Advance(v, total)
                    && ReadTo(d, at, old(buf[..]), buf[..], total))
      && (r.Err? ==> exists k :: ReadStoppedAt(d, v, old(buf[..]), buf[..], part.ViewOf(), total, k))
  {
    var lo := 0;
    ghost var v, d, before := part.ViewOf(), part.disk.dev.State(), buf[..];
    ghost var s := Entry(d, v, before);
    EntryTracks(d, v, before, false);
    while lo < buf.Length
      invariant part.Valid() && s == Loop(part.disk.dev.State(), part.ViewOf(), buf[..], lo, false)
      invariant part.disk.dev.State() == d && Tracks(d, v, before, false, s)
      invariant lo <= buf.Length
      decreases buf.Length - lo
    {
      TurnTracks(d, v, before, false, s);
      var one;
      one, s := ReadTurn(part, buf, lo, s);
      if one.Err? {
        ReadStops(d, v, before, s.buffer, lo);
        return Err(());
      }
      if one.value == 0 { break; }
      lo := lo + one.value;
    }
    r := Ok(lo);
  }

  /** `write` of the FAT partition wrapper. */
  method FatWrite(part: Partition, src: seq<Byte>) returns (r: Result<nat, ()>)
    requires part.Valid()
    modifies part, part.disk, part.disk.dev`data
    ensures part.Valid()
    ensures var v, d, d' := old(part.ViewOf()), old(part.disk.dev.State()), part.disk.dev.State();
      var total, at := Available(v, |src|), v.Absolute();
      && (r.Ok? <==> Transfers(d, v, |src|))
      && (r.Ok? ==> r.value == total && part.ViewOf() == Advance(v, total) && WrittenTo(d, at, d', src, total))
      && (r.Err? ==> exists k :: WriteStoppedAt(d, v, d', src, part.ViewOf(), total, k))
  {
    var lo := 0;
    ghost var v, d := part.ViewOf(), part.disk.dev.State();
    ghost var s := Entry(d, v, src);
    EntryTracks(d, v, src, true);
    while lo < |src|
      invariant part.Valid() && s == Loop(part.disk.dev.State(), part.ViewOf(), src, lo, false)
      invariant Tracks(d, v, src, true, s) && lo <= |src|
      decreases |src| - lo
    {
      TurnTracks(d, v, src, true, s);
      var one;
      one, s := WriteTurn(part, src, lo, s);
      if one.Err? {
        WriteStops(d, v, s.device, src, lo);
        return Err(());
      }
      if one.value == 0 { break; }
      lo := lo + one.value;
    }
    r := Ok(lo);
  }

  datatype SeekFrom = Start(pos: nat) | Current(off: int) | End(off: int)

  const U64_MAX: nat := 0xFFFF_FFFF_FFFF_FFFF

  /** The target of a seek, before it is clamped to the window; `None` when it leaves the u64 range. */
  function SeekTarget(v: View, from: SeekFrom): Option<nat> {
    var target: int :=
      match from
      case Start(pos) => pos
      case Current(off) => v.position + off
      case End(off) => v.Size() + off;
    if 0 <= target <= U64_MAX then Some(target) else None
  }

  /** `seek` reports the target it was asked for; the cursor is there only if that lies in the window. */
  method FatSeek(part: Partition, from: SeekFrom) returns (r: Result<nat, ()>)
    requires part.Valid() && (from.Start? ==> from.pos <= U64_MAX)
    modifies part
    ensures part.Valid()
    ensures r.Ok? <==> SeekTarget(old(part.ViewOf()), from).Some?
    ensures r.Err? ==> part.ViewOf() == old(part.ViewOf())
    ensures r.Ok? ==>
      && r.value == SeekTarget(old(part.ViewOf()), from).value
      && part.ViewOf() == old(part.ViewOf()).(position := Min(r.value, part.Size()))
      && (part.position == r.value <==> r.value <= part.Size())
  {
    var size := part.Size();
    var target: int;
    match from {
      case Start(pos) => target := pos;
      case Current(off) => target := part.position + off;
      case End(off) => target := size + off;
    }
    if target < 0 || target > U64_MAX { return Err(()); }
    part.SetPosition(target);
    r := Ok(target);
  }

  /** Every place in the window can be reached in three ways: from the start, from the cursor, from the end. */
  lemma {:induction false} ThreeWaysToSeek(v: View, n: nat)
    requires n <= v.Size() <= U64_MAX
    ensures SeekTarget(v, Start(n)) == Some(n)
    ensures SeekTarget(v, Current(n - v.position)) == Some(n)
    ensures SeekTarget(v, End(n - v.Size())) == Some(n)
  {
  }

  /** And what lies before the window's start cannot be reached. */
  lemma {:induction false} NoSeekBelow(v: View, n: nat)
    requires n > 0
    ensures SeekTarget(v, Current(0 - v.position - n)).None? && SeekTarget(v, End(0 - v.Size() - n)).None?
  {
  }

  // ---- the ext4 adapter

  const EXT4_BLOCK: nat := 4096

  /** The window with its cursor where `set_position` leaves it for block `blockId`. */
  function BlockAt(v: View, blockId: nat): View {
    v.(position := Min(blockId * EXT4_BLOCK, v.Size()))
  }

  /** The loop after at most `n` iterations. */
  function LoopAfter(s: Loop, todo: nat, write: bool, n: nat): (s': Loop)
    requires s.total <= |s.buffer|
    ensures s'.total <= |s'.buffer| == |s.buffer|
  {
    if n == 0 then s
    else
      var t := LoopAfter(s, todo, write, n - 1);
      if Ended(t, todo) then t else Turn(t, write)
  }

  lemma {:induction false} LoopTracks(d: Device, v: View, buffer: seq<Byte>, todo: nat, write: bool, n: nat)
    ensures Tracks(d, v, buffer, write, LoopAfter(Entry(d, v, buffer), todo, write, n))
  {
    if n == 0 {
      EntryTracks(d, v, buffer, write);
    } else {
      LoopTracks(d, v, buffer, todo, write, n - 1);
      var t := LoopAfter(Entry(d, v, buffer), todo, write, n - 1);
      if !Ended(t, todo) {
        TurnTracks(d, v, buffer, write, t);
      }
    }
  }

  /**
   * There is enough to do the work, or a bad sector before that point, or the buffer is used up inside the
   * window and the sector under the cursor, which even an empty transfer touches, is bad.
   */
  ghost predicate Returns(d: Device, v: View, len: nat, todo: nat) {
    var at, n := v.Absolute(), Available(v, len);
    || todo <= n
    || !AllGood(d, at, at + n)
    || (v.position + len < v.Size() && !Good(d, (at + len) / BLOCK))
  }

  lemma {:induction false} EndedReturns(d: Device, v: View, buffer: seq<Byte>, todo: nat, write: bool, s: Loop)
    requires Tracks(d, v, buffer, write, s) && Ended(s, todo)
    ensures Returns(d, v, |buffer|, todo)
  {
    if s.failed && s.total < Available(v, |buffer|) {
      AllGoodFails(d, v.Absolute(), v.Absolute() + s.total, v.Absolute() + Available(v, |buffer|));
    }
  }

  /** With everything available moved and more to do, a call that returns stands on a bad sector. */
  lemma {:induction false} UsedUpIsBad(d: Device, v: View, buffer: seq<Byte>, todo: nat, write: bool, s: Loop)
    requires Tracks(d, v, buffer, write, s) && s.total == Available(v, |buffer|) < todo
    requires Returns(d, v, |buffer|, todo)
    ensures s.view.position < s.view.Size() && !Good(s.device, s.view.Absolute() / BLOCK)
  {
    assert AllGood(d, v.Absolute(), v.Absolute() + s.total);
    assert s.view.Absolute() == v.Absolute() + s.total;
  }

  lemma {:induction false} BadSectorFails(s: Loop, write: bool)
    requires s.total <= |s.buffer| && s.view.position < s.view.Size() && !Good(s.device, s.view.Absolute() / BLOCK)
    ensures Turn(s, write).failed
  {
  }

  /** If the call returns at all, an iteration that goes on has moved at least a byte. */
  lemma {:induction false} TurnProgress(d: Device, v: View, buffer: seq<Byte>, todo: nat, write: bool, s: Loop)
    requires Tracks(d, v, buffer, write, s) && !Ended(s, todo) && Returns(d, v, |buffer|, todo)
    ensures s.total <= |s.buffer| && (Turn(s, write).failed || Turn(s, write).total > s.total)
  {
    TurnTracks(d, v, buffer, write, s);
    if s.total == Available(v, |buffer|) {
      UsedUpIsBad(d, v, buffer, todo, write, s);
      BadSectorFails(s, write);
    }
  }

  lemma {:induction false} LoopNext(d: Device, v: View, buffer: seq<Byte>, todo: nat, write: bool, n: nat, s: Loop)
    requires s == LoopAfter(Entry(d, v, buffer), todo, write, n) && !Ended(s, todo)
    requires Returns(d, v, |buffer|, todo)
    ensures LoopAfter(Entry(d, v, buffer), todo, write, n + 1) == Turn(s, write)
    ensures Turn(s, write).failed || Turn(s, write).total > s.total
  {
    LoopTracks(d, v, buffer, todo, write, n);
    TurnProgress(d, v, buffer, todo, write, s);
  }

  /** One more iteration ends the loop, or has moved at least a byte. */
  lemma {:induction false} NextMoves(d: Device, v: View, buffer: seq<Byte>, todo: nat, write: bool, n: nat)
    requires Returns(d, v, |buffer|, todo)
    ensures var entry := Entry(d, v, buffer);
      var s, t := LoopAfter(entry, todo, write, n), LoopAfter(entry, todo, write, n + 1);
      if Ended(s, todo) then t == s else t.failed || t.total > s.total
  {
    var s := LoopAfter(Entry(d, v, buffer), todo, write, n);
    if !Ended(s, todo) {
      LoopNext(d, v, buffer, todo, write, n, s);
    }
  }

  /** States that end or move on have ended, or moved as far as they are many. */
  lemma {:induction false} Climb(at: nat -> Loop, todo: nat, n: nat)
    requires forall i: nat ::
      if Ended(at(i), todo) then at(i + 1) == at(i) else at(i + 1).failed || at(i + 1).total > at(i).total
    ensures Ended(at(n), todo) || at(n).total >= n
  {
    if n > 0 {
      Climb(at, todo, n - 1);
      assert at(n - 1 + 1) == at(n);
    }
  }

  lemma {:induction false} LoopProgress(d: Device, v: View, buffer: seq<Byte>, todo: nat, write: bool, n: nat)
    requires Returns(d, v, |buffer|, todo)
    ensures var s := LoopAfter(Entry(d, v, buffer), todo, write, n); Ended(s, todo) || s.total >= n
  {
    var entry := Entry(d, v, buffer);
    var at := (i: nat) => LoopAfter(entry, todo, write, i);
    forall i: nat
      ensures if Ended(at(i), todo) then at(i + 1) == at(i) else at(i + 1).failed || at(i + 1).total > at(i).total
    {
      NextMoves(d, v, buffer, todo, write, i);
    }
    Climb(at, todo, n);
  }

  /** A call of the ext4 adapter comes to an end, with success or an error, if and only if `Returns` holds. */
  lemma {:induction false} LoopEndsIff(d: Device, v: View, buffer: seq<Byte>, todo: nat, write: bool)
    ensures (exists n: nat :: Ended(LoopAfter(Entry(d, v, buffer), todo, write, n), todo))
       <==> Returns(d, v, |buffer|, todo)
  {
    if Returns(d, v, |buffer|, todo) {
      LoopProgress(d, v, buffer, todo, write, todo);
      assert Ended(LoopAfter(Entry(d, v, buffer), todo, write, todo), todo);
    }
    if n: nat :| Ended(LoopAfter(Entry(d, v, buffer), todo, write, n), todo) {
      LoopTracks(d, v, buffer, todo, write, n);
      EndedReturns(d, v, buffer, todo, write, LoopAfter(Entry(d, v, buffer), todo, write, n));
    }
  }

  /** A call that ends has succeeded iff there was enough room and every sector of the work is good. */
  lemma {:induction false} SucceedsIff(d: Device, v: View, buffer: seq<Byte>, todo: nat, write: bool, s: Loop)
    requires Tracks(d, v, buffer, write, s) && Ended(s, todo) && (s.failed ==> s.total < todo)
    ensures !s.failed <==> todo <= Available(v, |buffer|) && AllGood(d, v.Absolute(), v.Absolute() + todo)
  {
    var at := v.Absolute();
    if s.failed {
      AllGoodFails(d, at, at + s.total, at + todo);
    } else {
      AllGoodPrefix(d, at, at + todo, at + s.total);
    }
  }

  lemma {:induction false} AllGoodPrefix(d: Device, from: nat, mid: nat, to: nat)
    requires AllGood(d, from, to) && mid <= to
    ensures AllGood(d, from, mid)
  {
  }

  /** The loop that starts as `start` ends as `end`. */
  ghost predicate EndsAs(start: Loop, todo: nat, write: bool, end: Loop)
    requires start.total <= |start.buffer|
  {
    Ended(end, todo) && Reached(start, todo, write, end)
  }

  /** The loop that starts as `start` comes to `s`. */
  ghost predicate Reached(start: Loop, todo: nat, write: bool, s: Loop)
    requires start.total <= |start.buffer|
  {
    exists n: nat :: LoopAfter(start, todo, write, n) == s
  }

  lemma {:induction false} ReachedEntry(start: Loop, todo: nat, write: bool)
    requires start.total <= |start.buffer|
    ensures Reached(start, todo, write, start)
  {
    assert LoopAfter(start, todo, write, 0) == start;
  }

  lemma {:induction false} ReachedNext(d: Device, v: View, buffer: seq<Byte>, todo: nat, write: bool, s: Loop)
    requires Reached(Entry(d, v, buffer), todo, write, s) && !Ended(s, todo) && Returns(d, v, |buffer|, todo)
    ensures s.total <= |s.buffer| && Reached(Entry(d, v, buffer), todo, write, Turn(s, write))
    ensures Turn(s, write).failed || Turn(s, write).total > s.total
  {
    var n: nat :| LoopAfter(Entry(d, v, buffer), todo, write, n) == s;
    LoopNext(d, v, buffer, todo, write, n, s);
  }

  /** Work in whole sectors from a sector boundary on stops exactly at its end, or at what is available. */
  ghost predicate Aligned(v: View, len: nat, todo: nat, s: Loop) {
    s.total <= todo && (s.failed ==> s.total < todo) && (s.total % BLOCK == 0 || s.total == Available(v, len))
  }

  lemma {:induction false} TurnAligned(d: Device, v: View, buffer: seq<Byte>, todo: nat, write: bool, s: Loop)
    requires v.position % BLOCK == 0 && todo % BLOCK == 0
    requires Tracks(d, v, buffer, write, s) && !Ended(s, todo) && Aligned(v, |buffer|, todo, s)
    ensures s.total <= |s.buffer| && Aligned(v, |buffer|, todo, Turn(s, write))
  {
    TurnTracks(d, v, buffer, write, s);
    var rest := s.buffer[s.total..];
    StepMoves(s.device, v, if write then Write(rest) else Read(|rest|), s.total, |buffer|);
    if s.total < Available(v, |buffer|) {
      SumOfMultiples(v.position, s.total);
      NextMultiple(s.total, todo);
    }
  }

  lemma {:induction false} LoopAligned(d: Device, v: View, buffer: seq<Byte>, todo: nat, write: bool, n: nat)
    requires v.position % BLOCK == 0 && todo % BLOCK == 0
    ensures Aligned(v, |buffer|, todo, LoopAfter(Entry(d, v, buffer), todo, write, n))
  {
    if n > 0 {
      LoopAligned(d, v, buffer, todo, write, n - 1);
      LoopTracks(d, v, buffer, todo, write, n - 1);
      var t := LoopAfter(Entry(d, v, buffer), todo, write, n - 1);
      if !Ended(t, todo) {
        TurnAligned(d, v, buffer, todo, write, t);
      }
    }
  }

  lemma {:induction false} NextMultiple(a: nat, b: nat)
    requires a % 512 == 0 && b % 512 == 0 && a < b
    ensures a + 512 <= b && (a + 512) % 512 == 0
  {
  }

  lemma {:induction false} SumOfMultiples(a: nat, b: nat)
    requires a % 512 == 0 && b % 512 == 0
    ensures (a + b) % 512 == 0
  {
  }

  lemma {:induction false} MultipleOf(x: nat)
    ensures (512 * x) % 512 == 0
  {
  }

  lemma {:induction false} BlocksAreSectors(n: nat)
    ensures (n * EXT4_BLOCK) % BLOCK == 0
  {
    assert n * 4096 == 512 * (8 * n);
    MultipleOf(8 * n);
  }

  lemma {:induction false} BlockAligned(v: View, blockId: nat)
    ensures BlockAt(v, blockId).position % BLOCK == 0
  {
    BlocksAreSectors(blockId);
    assert v.Size() == 512 * v.count;
    MultipleOf(v.count);
  }

  /** What is known of a transfer of `count` blocks that has ended. */
  ghost predicate Transferred(d: Device, v: View, buffer: seq<Byte>, todo: nat, write: bool, s: Loop) {
    && Tracks(d, v, buffer, write, s) && (if s.failed then s.total < todo else s.total == todo)
    && (!s.failed <==> todo <= Available(v, |buffer|) && AllGood(d, v.Absolute(), v.Absolute() + todo))
  }

  lemma {:induction false} EndFacts(d: Device, v: View, buffer: seq<Byte>, blockId: nat, count: nat, write: bool,
        end: Loop)
    requires EndsAs(Entry(d, BlockAt(v, blockId), buffer), count * EXT4_BLOCK, write, end)
    ensures Transferred(d, BlockAt(v, blockId), buffer, count * EXT4_BLOCK, write, end)
  {
    var w, todo := BlockAt(v, blockId), count * EXT4_BLOCK;
    var n: nat :| LoopAfter(Entry(d, w, buffer), todo, write, n) == end;
    BlockAligned(v, blockId);
    BlocksAreSectors(count);
    LoopTracks(d, w, buffer, todo, write, n);
    LoopAligned(d, w, buffer, todo, write, n);
    SucceedsIff(d, w, buffer, todo, write, end);
  }

  /** The write loop, from where the cursor stands. */
  method WriteLoop(part: Partition, buffer: seq<Byte>, todo: nat) returns (r: Result<(), ()>, ghost end: Loop)
    requires part.Valid() && Returns(part.disk.dev.State(), part.ViewOf(), |buffer|, todo)
    modifies part, part.disk, part.disk.dev`data
    ensures part.Valid()
    ensures end == Loop(part.disk.dev.State(), part.ViewOf(), buffer, end.total, r.Err?)
    ensures EndsAs(old(Entry(part.disk.dev.State(), part.ViewOf(), buffer)), todo, true, end)
  {
    var total := 0;
    ghost var d, v := part.disk.dev.State(), part.ViewOf();
    end := Entry(d, v, buffer);
    ReachedEntry(end, todo, true);
    while total < todo
      invariant part.Valid()
      invariant end == Loop(part.disk.dev.State(), part.ViewOf(), buffer, total, false)
      invariant Reached(Entry(d, v, buffer), todo, true, end)
      decreases todo - total
    {
      ReachedNext(d, v, buffer, todo, true, end);
      var written;
      written, end := WriteTurn(part, buffer, total, end);
      if written.Err? { return Err(()), end; }
      total := total + written.value;
    }
    r := Ok(());
  }

  /** The read loop, from where the cursor stands. */
  method ReadLoop(part: Partition, buffer: array<Byte>, todo: nat) returns (r: Result<(), ()>, ghost end: Loop)
    requires part.Valid() && Returns(part.disk.dev.State(), part.ViewOf(), buffer.Length, todo)
    modifies part, part.disk, buffer
    ensures part.Valid()
    ensures end == Loop(part.disk.dev.State(), part.ViewOf(), buffer[..], end.total, r.Err?)
    ensures EndsAs(old(Entry(part.disk.dev.State(), part.ViewOf(), buffer[..])), todo, false, end)
  {
    var total := 0;
    ghost var d, v, before := part.disk.dev.State(), part.ViewOf(), buffer[..];
    end := Entry(d, v, before);
    ReachedEntry(end, todo, false);
    while total < todo
      invariant part.Valid() && end == Loop(part.disk.dev.State(), part.ViewOf(), buffer[..], total, false)
      invariant Reached(Entry(d, v, before), todo, false, end)
      decreases todo - total
    {
      ReachedNext(d, v, before, todo, false, end);
      var read;
      read, end := ReadTurn(part, buffer, total, end);
      if read.Err? { return Err(()), end; }
      total := total + read.value;
    }
    r := Ok(());
  }

  // ---- a disk without a partition table

  /** The window that `scan_gpt_partitions` falls back to: sectors 0 to the disk's sector count, inclusive. */
  predicate WholeDisk(d: Device, v: View) {
    |d.data| % BLOCK == 0 && v.first == 0 && v.count == |d.data| / BLOCK + 1 && v.position <= v.Size()
  }

  /** It is one sector too long: a transfer fails on a bad sector, and on all of that last sector. */
  lemma {:induction false} WholeDiskFailsIff(d: Device, v: View, op: Op)
    requires WholeDisk(d, v) && !op.Seek?
    ensures v.Size() == |d.data| + BLOCK
    ensures Step(d, v, op).outcome.Failed? <==>
      v.position < v.Size() && (v.position >= |d.data| || v.position / BLOCK in d.bad)
  {
    if v.position < |d.data| {
      assert v.position / BLOCK + 1 <= |d.data| / BLOCK;
    }
  }

  /** On a disk without bad sectors, a FAT transfer succeeds iff it keeps off that sector or starts behind it. */
  lemma {:induction false} WholeDiskTransferIff(d: Device, v: View, len: nat)
    requires WholeDisk(d, v) && d.bad == {} && len > 0
    ensures Transfers(d, v, len) <==> v.position + len <= |d.data| || v.position == v.Size()
  {
    var at, n := v.Absolute(), Available(v, len);
    if v.position < v.Size() {
      if at + n <= |d.data| {
        forall s: nat | s * BLOCK < at + n ensures Good(d, s) {
          assert (s + 1) * BLOCK <= |d.data|;
        }
      } else {
        var s := |d.data| / BLOCK;
        assert s * BLOCK == |d.data| < at + n && !Good(d, s);
        assert at / BLOCK <= s;
      }
    }
  }
}
