/** Block devices and partition cursors as values: what one read or write does to the bytes. */
module BlockSpec {
  import opened Basics

  const BLOCK: nat := 512

  /** A device: its bytes, and the sectors whose transfers fail. */
  datatype Device = Device(data: seq<Byte>, bad: set<nat>)

  /** A sector that can be transferred. */
  predicate Good(d: Device, sector: nat) {
    (sector + 1) * BLOCK <= |d.data| && sector !in d.bad
  }

  /** A window of `count` sectors from sector `first`, with a byte cursor inside it. */
  datatype View = View(first: nat, count: nat, position: nat) {
    function Size(): nat { count * BLOCK }
    function Absolute(): nat { first * BLOCK + position }
  }

  datatype Op = Seek(pos: nat) | Read(len: nat) | Write(bytes: seq<Byte>)

  datatype Outcome = Moved | Got(bytes: seq<Byte>) | Wrote(n: nat) | Failed

  /** `src` in place of as many bytes from `at` on. */
  function Splice(s: seq<Byte>, at: nat, src: seq<Byte>): (r: seq<Byte>)
    requires at + |src| <= |s|
    ensures |r| == |s|
  {
    s[..at] + src + s[at + |src|..]
  }

  /** Bytes that one transfer moves: never past the end of a sector. */
  function Chunk(pos: nat, len: nat): nat {
    Min(len, BLOCK - pos % BLOCK)
  }

  /** Bytes that one transfer through a window moves. */
  function WindowChunk(v: View, len: nat): nat {
    if v.position >= v.Size() then 0 else Chunk(v.position, Min(len, v.Size() - v.position))
  }

  function Advance(v: View, k: nat): View {
    v.(position := v.position + k)
  }

  datatype Next = Next(device: Device, view: View, outcome: Outcome)

  /** `set_position`, `read_one` and `write_one` of a partition. */
  function Step(d: Device, v: View, op: Op): Next {
    var at, sector := v.Absolute(), v.Absolute() / BLOCK;
    match op
    case Seek(pos) => Next(d, v.(position := Min(pos, v.Size())), Moved)
    case Read(len) =>
      if v.position >= v.Size() then Next(d, v, Got([]))
      else if !Good(d, sector) then Next(d, v, Failed)
      else
        var n := WindowChunk(v, len);
        FitsSector(d, at, n);
        Next(d, v.(position := v.position + n), Got(d.data[at..at + n]))
    case Write(bytes) =>
      if v.position >= v.Size() then Next(d, v, Wrote(0))
      else if !Good(d, sector) then Next(d, v, Failed)
      else
        var n := WindowChunk(v, |bytes|);
        FitsSector(d, at, n);
        Next(d.(data := Splice(d.data, at, bytes[..n])), v.(position := v.position + n), Wrote(n))
  }

  /** A chunk stays inside the sector it starts in. */
  lemma {:induction false} FitsSector(d: Device, at: nat, n: nat)
    requires Good(d, at / BLOCK) && n <= BLOCK - at % BLOCK
    ensures at + n <= |d.data|
  {
    assert at == at / BLOCK * BLOCK + at % BLOCK;
  }

  // ---- one window on its own

  predicate Fits(d: Device, v: View) {
    v.position <= v.Size() && (v.first + v.count) * BLOCK <= |d.data|
  }

  /** The bytes of a window. */
  function Contents(d: Device, v: View): (c: seq<Byte>)
    requires Fits(d, v)
    ensures |c| == v.Size()
  {
    d.data[v.first * BLOCK..(v.first + v.count) * BLOCK]
  }

  /** The bad sectors of a window, counted from its start. */
  function LocalBad(first: nat, count: nat, bad: set<nat>): (local: set<nat>)
    ensures forall k: nat :: k in local <==> k < count && first + k in bad
  {
    set s | s in bad && first <= s < first + count :: s - first
  }

  /** A device that holds the bytes of the window and nothing else. */
  function Private(d: Device, v: View): Device
    requires Fits(d, v)
  {
    Device(Contents(d, v), LocalBad(v.first, v.count, d.bad))
  }

  function Rebased(v: View): View {
    v.(first := 0)
  }

  lemma {:induction false} AbsoluteSector(v: View)
    ensures v.Absolute() / BLOCK == v.first + v.position / BLOCK
    ensures v.Absolute() % BLOCK == v.position % BLOCK
  {
    assert v.Absolute() == BLOCK * (v.first + v.position / BLOCK) + v.position % BLOCK;
  }

  /** The read step of a window in terms of absolute positions. */
  lemma {:induction false} ReadInWindow(d: Device, v: View, len: nat)
    requires v.position < v.Size()
    ensures var at, n := v.Absolute(), Chunk(v.Absolute(), Min(len, v.Size() - v.position));
      if Good(d, at / BLOCK) then
        at + n <= |d.data|
        && Step(d, v, Read(len)) == Next(d, v.(position := v.position + n), Got(d.data[at..at + n]))
      else Step(d, v, Read(len)) == Next(d, v, Failed)
  {
    AbsoluteSector(v);
  }

  lemma {:induction false} WriteInWindow(d: Device, v: View, src: seq<Byte>)
    requires v.position < v.Size()
    ensures var at, m := v.Absolute(), Min(|src|, v.Size() - v.position);
      var n := Chunk(at, m);
      if Good(d, at / BLOCK) then
        && at + n <= |d.data| && src[..m][..n] == src[..n]
        && Step(d, v, Write(src))
           == Next(d.(data := Splice(d.data, at, src[..n])), v.(position := v.position + n), Wrote(n))
      else Step(d, v, Write(src)) == Next(d, v, Failed)
  {
    AbsoluteSector(v);
  }

  /** Inside the window, a sector of the private device is as good as the one it stands for. */
  lemma {:induction false} SameSector(d: Device, v: View)
    requires Fits(d, v) && v.position < v.Size()
    ensures Good(d, v.Absolute() / BLOCK) <==> Good(Private(d, v), v.position / BLOCK)
  {
    AbsoluteSector(v);
    var k := v.position / BLOCK;
    assert k < v.count;
    assert (v.first + k + 1) * BLOCK <= (v.first + v.count) * BLOCK;
  }

  lemma {:induction false} SpliceInside(s: seq<Byte>, from: nat, to: nat, at: nat, src: seq<Byte>)
    requires from <= to <= |s| && from <= at && at + |src| <= to
    ensures Splice(s, at, src)[from..to] == Splice(s[from..to], at - from, src)
    ensures Splice(s, at, src)[..from] == s[..from] && Splice(s, at, src)[to..] == s[to..]
  {
  }

  lemma {:induction false} SpliceOutside(s: seq<Byte>, from: nat, to: nat, at: nat, src: seq<Byte>)
    requires from <= to <= |s| && at + |src| <= |s|
    requires at + |src| <= from || to <= at
    ensures Splice(s, at, src)[from..to] == s[from..to]
  {
  }

  /** `d'` differs from `d` inside the window at most. */
  predicate OnlyInside(d: Device, d': Device, v: View)
    requires Fits(d, v)
  {
    && |d'.data| == |d.data| && d'.bad == d.bad
    && d'.data[..v.first * BLOCK] == d.data[..v.first * BLOCK]
    && d'.data[(v.first + v.count) * BLOCK..] == d.data[(v.first + v.count) * BLOCK..]
  }

  /** The step through the window is the same step on a private array. */
  predicate Mirrors(d: Device, v: View, op: Op)
    requires Fits(d, v)
  {
    var s, p := Step(d, v, op), Step(Private(d, v), Rebased(v), op);
    && s.view.first == v.first && s.view.count == v.count && Fits(s.device, s.view)
    && s.outcome == p.outcome && Rebased(s.view) == p.view && Private(s.device, s.view) == p.device
  }

  lemma {:induction false} ReadIsPrivate(d: Device, v: View, len: nat)
    requires Fits(d, v) && v.position < v.Size()
    ensures Mirrors(d, v, Read(len))
  {
    SameSector(d, v);
    AbsoluteSector(v);
    ReadInWindow(Private(d, v), Rebased(v), len);
    if Good(d, v.Absolute() / BLOCK) {
      GoodRead(d, v, len);
    } else {
      ReadInWindow(d, v, len);
    }
  }

  /** A read of a good sector, and the bytes of the private array it gives. */
  lemma {:induction false} GoodRead(d: Device, v: View, len: nat)
    requires Fits(d, v) && v.position < v.Size() && Good(d, v.Absolute() / BLOCK)
    ensures var n := WindowChunk(v, len);
      && v.position + n <= |Contents(d, v)|
      && Step(d, v, Read(len)) == Next(d, Advance(v, n), Got(Contents(d, v)[v.position..v.position + n]))
  {
    AbsoluteSector(v);
    ReadInWindow(d, v, len);
    SliceInside(d.data, v.first * BLOCK, (v.first + v.count) * BLOCK, v.position, WindowChunk(v, len));
  }

  lemma {:induction false} SliceInside(s: seq<Byte>, from: nat, to: nat, at: nat, n: nat)
    requires from <= to <= |s| && at + n <= to - from
    ensures s[from..to][at..at + n] == s[from + at..from + at + n]
  {
    var a, b := s[from..to][at..at + n], s[from + at..from + at + n];
    assert |a| == |b| && forall i :: 0 <= i < |a| ==> a[i] == b[i];
  }

  /** Bytes put into the window are put into the private array, and nowhere else. */
  lemma {:induction false} PutIsPrivate(d: Device, v: View, bytes: seq<Byte>)
    requires Fits(d, v) && v.position + |bytes| <= v.Size()
    ensures var d' := d.(data := Splice(d.data, v.Absolute(), bytes));
      && Fits(d', Advance(v, |bytes|)) && OnlyInside(d, d', v)
      && Private(d', Advance(v, |bytes|)) == Private(d, v).(data := Splice(Contents(d, v), v.position, bytes))
  {
    SpliceInside(d.data, v.first * BLOCK, (v.first + v.count) * BLOCK, v.Absolute(), bytes);
  }

  lemma {:induction false} WriteIsPrivate(d: Device, v: View, bytes: seq<Byte>)
    requires Fits(d, v) && v.position < v.Size()
    ensures Mirrors(d, v, Write(bytes)) && OnlyInside(d, Step(d, v, Write(bytes)).device, v)
  {
    SameSector(d, v);
    AbsoluteSector(v);
    if Good(d, v.Absolute() / BLOCK) {
      GoodWrite(d, v, bytes);
      GoodWrite(Private(d, v), Rebased(v), bytes);
      PutIsPrivate(d, v, bytes[..WindowChunk(v, |bytes|)]);
    } else {
      WriteInWindow(d, v, bytes);
      WriteInWindow(Private(d, v), Rebased(v), bytes);
    }
  }

  lemma {:induction false} GoodWrite(d: Device, v: View, bytes: seq<Byte>)
    requires Fits(d, v) && v.position < v.Size() && Good(d, v.Absolute() / BLOCK)
    ensures var n := WindowChunk(v, |bytes|);
      && v.position + n <= v.Size() && v.Absolute() + n <= |d.data|
      && Step(d, v, Write(bytes))
         == Next(d.(data := Splice(d.data, v.Absolute(), bytes[..n])), Advance(v, n), Wrote(n))
  {
    AbsoluteSector(v);
    WriteInWindow(d, v, bytes);
  }

  /** A step through a window is the same step on a private array, and touches nothing outside the window. */
  lemma {:induction false} StepIsPrivate(d: Device, v: View, op: Op)
    requires Fits(d, v)
    ensures Mirrors(d, v, op) && OnlyInside(d, Step(d, v, op).device, v)
  {
    if v.position < v.Size() {
      match op
      case Seek(_) =>
      case Read(len) => ReadIsPrivate(d, v, len);
      case Write(bytes) => WriteIsPrivate(d, v, bytes);
    }
  }

  /** A step through one window leaves the bytes of a disjoint window alone. */
  lemma {:induction false} StepElsewhere(d: Device, v: View, op: Op, w: View)
    requires Fits(d, v) && Fits(d, w) && Disjoint(v, w)
    ensures Fits(Step(d, v, op).device, w) && Private(Step(d, v, op).device, w) == Private(d, w)
  {
    if op.Write? && v.position < v.Size() && Good(d, v.Absolute() / BLOCK) {
      SpliceOutside(d.data, w.first * BLOCK, (w.first + w.count) * BLOCK,
                    v.Absolute(), op.bytes[..WindowChunk(v, |op.bytes|)]);
    }
  }

  predicate Disjoint(v: View, w: View) {
    v.first + v.count <= w.first || w.first + w.count <= v.first
  }

  // ---- two windows, interleaved

  datatype Trace = Trace(device: Device, view: View, outcomes: seq<Outcome>)

  /** A run of one window. */
  function RunAlone(d: Device, v: View, ops: seq<Op>): Trace
    decreases |ops|
  {
    if ops == [] then Trace(d, v, [])
    else
      var s := Step(d, v, ops[0]);
      var t := RunAlone(s.device, s.view, ops[1..]);
      t.(outcomes := [s.outcome] + t.outcomes)
  }

  datatype Shared = Shared(device: Device, a: View, b: View, outA: seq<Outcome>, outB: seq<Outcome>)

  /** A run of two windows on one device; `true` marks the operations of the first. */
  function RunShared(d: Device, a: View, b: View, script: seq<(bool, Op)>): Shared
    decreases |script|
  {
    if script == [] then Shared(d, a, b, [], [])
    else if script[0].0 then
      var s := Step(d, a, script[0].1);
      var t := RunShared(s.device, s.view, b, script[1..]);
      t.(outA := [s.outcome] + t.outA)
    else
      var s := Step(d, b, script[0].1);
      var t := RunShared(s.device, a, s.view, script[1..]);
      t.(outB := [s.outcome] + t.outB)
  }

  function OpsOf(script: seq<(bool, Op)>, first: bool): seq<Op> {
    if script == [] then []
    else (if script[0].0 == first then [script[0].1] else []) + OpsOf(script[1..], first)
  }

  /** Byte positions that belong to neither window. */
  predicate Outside(k: nat, a: View, b: View) {
    && !(a.first * BLOCK <= k < (a.first + a.count) * BLOCK)
    && !(b.first * BLOCK <= k < (b.first + b.count) * BLOCK)
  }

  lemma {:induction false} OutsideUnchanged(d: Device, v: View, op: Op, k: nat)
    requires Fits(d, v) && k < |d.data|
    requires !(v.first * BLOCK <= k < (v.first + v.count) * BLOCK)
    ensures k < |Step(d, v, op).device.data| && Step(d, v, op).device.data[k] == d.data[k]
  {
    StepIsPrivate(d, v, op);
    var d' := Step(d, v, op).device;
    if k < v.first * BLOCK {
      assert d'.data[..v.first * BLOCK][k] == d.data[..v.first * BLOCK][k];
    } else {
      var to := (v.first + v.count) * BLOCK;
      assert d'.data[to..][k - to] == d.data[to..][k - to];
    }
  }

  /**
   * In every interleaving, each of two disjoint windows sees exactly what it would see alone on a private
   * array of its own bytes, and ends with the same bytes.
   */
  lemma {:induction false} InterleavingIsPrivate(d: Device, a: View, b: View, script: seq<(bool, Op)>)
    requires Fits(d, a) && Fits(d, b) && Disjoint(a, b)
    ensures var r := RunShared(d, a, b, script);
      var alone := RunAlone(Private(d, a), Rebased(a), OpsOf(script, true));
      && Fits(r.device, r.a) && r.outA == alone.outcomes
      && Rebased(r.a) == alone.view && Private(r.device, r.a) == alone.device
    ensures var r := RunShared(d, a, b, script);
      var alone := RunAlone(Private(d, b), Rebased(b), OpsOf(script, false));
      && Fits(r.device, r.b) && r.outB == alone.outcomes
      && Rebased(r.b) == alone.view && Private(r.device, r.b) == alone.device
    decreases |script|
  {
    if script != [] {
      var op, rest := script[0].1, script[1..];
      var me, other := if script[0].0 then a else b, if script[0].0 then b else a;
      var s := Step(d, me, op);
      StepIsPrivate(d, me, op);
      StepElsewhere(d, me, op, other);
      if script[0].0 {
        InterleavingIsPrivate(s.device, s.view, b, rest);
        AloneStep(Private(d, a), Rebased(a), op, OpsOf(rest, true));
        assert OpsOf(script, true) == [op] + OpsOf(rest, true) && OpsOf(script, false) == OpsOf(rest, false);
      } else {
        InterleavingIsPrivate(s.device, a, s.view, rest);
        AloneStep(Private(d, b), Rebased(b), op, OpsOf(rest, false));
        assert OpsOf(script, false) == [op] + OpsOf(rest, false) && OpsOf(script, true) == OpsOf(rest, true);
      }
    }
  }

  lemma {:induction false} AloneStep(d: Device, v: View, op: Op, ops: seq<Op>)
    ensures var s := Step(d, v, op);
      var t := RunAlone(s.device, s.view, ops);
      RunAlone(d, v, [op] + ops) == t.(outcomes := [s.outcome] + t.outcomes)
  {
    assert ([op] + ops)[1..] == ops;
  }

  /** No interleaving changes a byte outside both windows. */
  lemma {:induction false} InterleavingStaysInside(d: Device, a: View, b: View, script: seq<(bool, Op)>, k: nat)
    requires Fits(d, a) && Fits(d, b) && Disjoint(a, b) && k < |d.data| && Outside(k, a, b)
    ensures k < |RunShared(d, a, b, script).device.data|
    ensures RunShared(d, a, b, script).device.data[k] == d.data[k]
    decreases |script|
  {
    if script != [] {
      var op, rest := script[0].1, script[1..];
      var me, other := if script[0].0 then a else b, if script[0].0 then b else a;
      var s := Step(d, me, op);
      StepIsPrivate(d, me, op);
      StepElsewhere(d, me, op, other);
      OutsideUnchanged(d, me, op, k);
      if script[0].0 {
        InterleavingStaysInside(s.device, s.view, b, rest, k);
      } else {
        InterleavingStaysInside(s.device, a, s.view, rest, k);
      }
    }
  }
}
