/** The shell's input loop: a fixed buffer edited in place, against text before and after the cursor. */
module LineEditor {
  import opened Basics
  import opened History

  const MAX_LINE_LEN: nat := 256
  const HISTORY_SIZE: nat := 100

  const LF: Byte := 0x0a
  const CR: Byte := 0x0d
  const DL: Byte := 0x7f
  const BS: Byte := 0x08
  const ESC: Byte := 0x1b

  datatype Mode = Normal | Escape | EscapeSeq

  /** Decoding is not modelled: which byte strings are UTF-8, and which of them are blank. */
  datatype Decoding = Decoding(valid: Line -> bool, blank: Line -> bool)

  /** The line as text before and after the cursor, the history, and all lines submitted so far. */
  datatype Editor = Editor(before: Line, after: Line, mode: Mode, hist: Hist, submitted: seq<Line>)

  const EMPTY := Editor([], [], Normal, Hist([], 0), [])

  /** The text that goes to the history: the line, or nothing when it is not UTF-8. */
  function Decoded(dec: Decoding, line: Line): Line {
    if dec.valid(line) then line else []
  }

  function Submit(e: Editor, dec: Decoding): Editor {
    var line := e.before + e.after;
    if line == [] then e
    else
      var text := Decoded(dec, line);
      e.(before := [], after := [], hist := Add(e.hist, HISTORY_SIZE, text, dec.blank(text)),
         submitted := e.submitted + [line])
  }

  function Recalled(e: Editor, h: Hist, line: Line): Editor {
    e.(before := line[..Min(|line|, MAX_LINE_LEN - 1)], after := [], hist := h, mode := Normal)
  }

  function Key(e: Editor, dec: Decoding, ch: Byte): Editor {
    if ch == CR || ch == LF then Submit(e, dec)
    else if ch == BS || ch == DL then
      if e.before == [] then e else e.(before := e.before[..|e.before| - 1])
    else if ch == ESC then e.(mode := Escape)
    else if ch <= 31 then e
    else if |e.before| + |e.after| < MAX_LINE_LEN - 1 then e.(before := e.before + [ch])
    else e
  }

  function Arrow(e: Editor, ch: Byte): Editor {
    if ch == 0x41 then
      var (h, line) := Up(e.hist);
      if line.Some? then Recalled(e, h, line.value) else e.(mode := Normal)
    else if ch == 0x42 then
      var (h, line) := Down(e.hist);
      if line.Some? then Recalled(e, h, line.value) else e.(before := [], after := [], hist := h, mode := Normal)
    else if ch == 0x43 && e.after != [] then
      e.(before := e.before + [e.after[0]], after := e.after[1..], mode := Normal)
    else if ch == 0x44 && e.before != [] then
      var n := |e.before| - 1;
      e.(before := e.before[..n], after := [e.before[n]] + e.after, mode := Normal)
    else e.(mode := Normal)
  }

  /** One input byte. */
  function Step(e: Editor, dec: Decoding, ch: Byte): Editor {
    match e.mode
    case Normal => Key(e, dec, ch)
    case Escape => e.(mode := if ch == 0x5b then EscapeSeq else Normal)
    case EscapeSeq => Arrow(e, ch)
  }

  function Run(e: Editor, dec: Decoding, input: seq<Byte>): Editor {
    if input == [] then e else Step(Run(e, dec, input[..|input| - 1]), dec, input[|input| - 1])
  }

  // ---- what every input keeps

  predicate Fits(e: Editor) {
    && |e.before| + |e.after| <= MAX_LINE_LEN - 1
    && (forall i :: 0 <= i < |e.hist.lines| ==> |e.hist.lines[i]| <= MAX_LINE_LEN - 1)
    && e.hist.index <= |e.hist.lines|
  }

  /** The submitted lines that count as commands. */
  function Commands(dec: Decoding, submitted: seq<Line>): seq<Line> {
    if submitted == [] then []
    else
      var n := |submitted| - 1;
      var text := Decoded(dec, submitted[n]);
      Commands(dec, submitted[..n]) + if dec.blank(text) then [] else [text]
  }

  /** The history holds the last hundred commands, without immediate repetitions. */
  predicate Remembers(e: Editor, dec: Decoding) {
    e.hist.lines == Recent(Squeezed(Commands(dec, e.submitted)), 100)
  }

  lemma {:induction false} SubmitRemembers(e: Editor, dec: Decoding)
    requires Remembers(e, dec)
    ensures Remembers(Submit(e, dec), dec)
  {
    var line := e.before + e.after;
    if line != [] {
      var text := Decoded(dec, line);
      var submitted' := e.submitted + [line];
      assert submitted'[..|e.submitted|] == e.submitted;
      var log := Commands(dec, e.submitted);
      if dec.blank(text) {
        assert Commands(dec, submitted') == log + [] == log;
      } else {
        assert Commands(dec, submitted') == log + [text];
        AddKeepsRecent(e.hist, 100, log, text);
      }
    }
  }

  lemma {:induction false} KeyFits(e: Editor, dec: Decoding, ch: Byte)
    requires Fits(e)
    ensures Fits(Key(e, dec, ch))
  {
  }

  lemma {:induction false} ArrowFits(e: Editor, ch: Byte)
    requires Fits(e)
    ensures Fits(Arrow(e, ch))
  {
  }

  /** Only a submitted line touches the history's lines. */
  lemma {:induction false} StepHistory(e: Editor, dec: Decoding, ch: Byte)
    ensures var e' := Step(e, dec, ch);
      (e'.hist.lines == e.hist.lines && e'.submitted == e.submitted) || e' == Submit(e, dec)
  {
    match e.mode
    case Normal =>
    case Escape =>
    case EscapeSeq => ArrowHistory(e, ch);
  }

  lemma {:induction false} ArrowHistory(e: Editor, ch: Byte)
    ensures Arrow(e, ch).hist.lines == e.hist.lines && Arrow(e, ch).submitted == e.submitted
  {
  }

  lemma {:induction false} StepKeeps(e: Editor, dec: Decoding, ch: Byte)
    requires Fits(e) && Remembers(e, dec)
    ensures Fits(Step(e, dec, ch)) && Remembers(Step(e, dec, ch), dec)
  {
    KeyFits(e, dec, ch);
    ArrowFits(e, ch);
    StepHistory(e, dec, ch);
    SubmitRemembers(e, dec);
  }

  /** For every input the line fits the buffer and the history is the recent part of the command log. */
  lemma {:induction false} RunKeeps(dec: Decoding, input: seq<Byte>)
    ensures Fits(Run(EMPTY, dec, input)) && Remembers(Run(EMPTY, dec, input), dec)
  {
    if input == [] {
      assert Commands(dec, []) == [];
    } else {
      RunKeeps(dec, input[..|input| - 1]);
      StepKeeps(Run(EMPTY, dec, input[..|input| - 1]), dec, input[|input| - 1]);
    }
  }

  /**
   * Whatever was typed before, an arrow that finds a line shows that line in full, whichever way it goes: no
   * recalled line is ever cut.
   */
  lemma {:induction false} RecallIsComplete(dec: Decoding, input: seq<Byte>, up: bool)
    requires var e := Run(EMPTY, dec, input);
      e.mode == EscapeSeq && if up then e.hist.index > 0 else e.hist.index + 1 < |e.hist.lines|
    ensures var e := Run(EMPTY, dec, input);
      var e', i := Step(e, dec, if up then 0x41 else 0x42), if up then e.hist.index - 1 else e.hist.index + 1;
      i < |e.hist.lines| && e'.before == e.hist.lines[i] && e'.after == [] && e'.hist.index == i
  {
    RunKeeps(dec, input);
  }

  // ---- the buffer

  /** Move `a[lo..hi]` one place to the left. */
  method ShiftLeft(a: array<Byte>, lo: nat, hi: nat)
    requires 1 <= lo <= hi <= a.Length
    modifies a
    ensures forall j :: 0 <= j < lo - 1 || hi <= j < a.Length ==> a[j] == old(a[j])
    ensures forall j :: lo - 1 <= j < hi - 1 ==> a[j] == old(a[j + 1])
  {
    ghost var was := a[..];
    for i := lo to hi
      invariant forall j :: 0 <= j < lo - 1 ==> a[j] == was[j]
      invariant forall j :: lo - 1 <= j < i - 1 ==> a[j] == was[j + 1]
      invariant forall j :: i <= j < a.Length ==> a[j] == was[j]
    {
      a[i - 1] := a[i];
    }
  }

  /** Move `a[lo..hi]` one place to the right. */
  method ShiftRight(a: array<Byte>, lo: nat, hi: nat)
    requires lo <= hi < a.Length
    modifies a
    ensures forall j :: 0 <= j < lo || hi < j < a.Length ==> a[j] == old(a[j])
    ensures forall j :: lo < j <= hi ==> a[j] == old(a[j - 1])
  {
    ghost var was := a[..];
    var i := hi;
    while i > lo
      invariant lo <= i <= hi
      invariant forall j :: 0 <= j <= i || hi < j < a.Length ==> a[j] == was[j]
      invariant forall j :: i < j <= hi ==> a[j] == was[j - 1]
    {
      i := i - 1;
      a[i + 1] := a[i];
    }
  }

  /** The bytes after shifting the tail right and putting `c` into the gap. */
  lemma {:induction false} InsertedAt(was: seq<Byte>, now: seq<Byte>, at: nat, len: nat, c: Byte)
    requires at <= len < |was| && |now| == |was| && now[at] == c
    requires forall i :: 0 <= i < at ==> now[i] == was[i]
    requires forall i :: at < i <= len ==> now[i] == was[i - 1]
    ensures now[..at + 1] == was[..at] + [c] && now[at + 1..len + 1] == was[at..len]
  {
    var a, b := now[at + 1..len + 1], was[at..len];
    assert |a| == |b| && forall i :: 0 <= i < |a| ==> a[i] == b[i];
  }

  class Console {
    var buf: array<Byte>
    var cursor: nat
    var lineLen: nat
    var mode: Mode
    const history: CommandHistory
    const dec: Decoding
    /** Lines handed to the command interpreter. */
    var submitted: seq<Line>

    ghost predicate Valid() reads this, buf, history {
      && buf.Length == MAX_LINE_LEN && cursor <= lineLen <= MAX_LINE_LEN - 1
      && (forall i :: lineLen <= i < MAX_LINE_LEN ==> buf[i] == 0)
      && history.Valid() && history.maxSize == HISTORY_SIZE
    }

    ghost function State(): Editor
      requires cursor <= lineLen <= buf.Length
      reads this, buf, history
    {
      Editor(buf[..cursor], buf[cursor..lineLen], mode, history.State(), submitted)
    }

    constructor (dec: Decoding)
      ensures Valid() && State() == EMPTY && this.dec == dec && fresh(buf) && fresh(history)
    {
      buf := new Byte[MAX_LINE_LEN](_ => 0);
      cursor, lineLen, mode, submitted := 0, 0, Normal, [];
      this.dec := dec;
      history := new CommandHistory(HISTORY_SIZE);
    }

    /** Empty the line. */
    method Wipe()
      requires Valid()
      modifies this`cursor, this`lineLen, buf
      ensures Valid() && State() == old(State()).(before := [], after := [])
    {
      for i := 0 to lineLen
        modifies buf
        invariant forall j :: 0 <= j < i || lineLen <= j < MAX_LINE_LEN ==> buf[j] == 0
      {
        buf[i] := 0;
      }
      cursor, lineLen := 0, 0;
    }

    method SubmitLine()
      requires Valid() && mode == Normal
      modifies this, buf, history
      ensures Valid() && buf == old(buf) && State() == Submit(old(State()), dec)
    {
      if lineLen > 0 {
        var line := buf[..lineLen];
        assert line == buf[..cursor] + buf[cursor..lineLen];
        var text := if dec.valid(line) then line else [];
        var _ := history.AddCommand(text, dec.blank(text));
        submitted := submitted + [line];
        Wipe();
      }
    }

    method Backspace()
      requires Valid() && cursor > 0
      modifies this`cursor, this`lineLen, buf
      ensures Valid()
      ensures State() == old(State()).(before := old(buf[..cursor - 1]))
    {
      ghost var was := buf[..];
      ShiftLeft(buf, cursor, lineLen);
      cursor := cursor - 1;
      lineLen := lineLen - 1;
      if lineLen < buf.Length {
        buf[lineLen] := 0;
      }
      assert buf[..cursor] == was[..cursor];
      assert buf[cursor..lineLen] == was[cursor + 1..lineLen + 1];
    }

    method InsertChar(c: Byte)
      requires Valid() && lineLen < MAX_LINE_LEN - 1
      modifies this`cursor, this`lineLen, buf
      ensures Valid()
      ensures State() == old(State()).(before := old(buf[..cursor]) + [c])
    {
      ghost var was := buf[..];
      ShiftRight(buf, cursor, lineLen);
      buf[cursor] := c;
      InsertedAt(was, buf[..], cursor, lineLen, c);
      assert buf[..cursor + 1] == buf[..][..cursor + 1];
      assert buf[cursor + 1..lineLen + 1] == buf[..][cursor + 1..lineLen + 1];
      cursor := cursor + 1;
      lineLen := lineLen + 1;
    }

    /** Replace the line by a recalled one, as far as it fits. */
    method Load(line: Line)
      requires Valid()
      modifies this`cursor, this`lineLen, buf
      ensures Valid()
      ensures State() == old(State()).(before := line[..Min(|line|, MAX_LINE_LEN - 1)], after := [])
    {
      Wipe();
      var n := Min(|line|, MAX_LINE_LEN - 1);
      for i := 0 to n
        modifies buf
        invariant forall j :: 0 <= j < MAX_LINE_LEN ==> buf[j] == if j < i then line[j] else 0
      {
        buf[i] := line[i];
      }
      cursor, lineLen := n, n;
    }

    method HandleKey(ch: Byte)
      requires Valid() && mode == Normal
      modifies this, buf, history
      ensures Valid() && buf == old(buf) && State() == Key(old(State()), dec, ch)
    {
      if ch == CR || ch == LF {
        SubmitLine();
      } else if ch == BS || ch == DL {
        if cursor > 0 {
          assert buf[..cursor][..cursor - 1] == buf[..cursor - 1];
          Backspace();
        }
      } else if ch == ESC {
        mode := Escape;
      } else if ch <= 31 {
      } else if lineLen < MAX_LINE_LEN - 1 {
        InsertChar(ch);
      }
    }

    method Recall(up: bool)
      requires Valid()
      modifies this`cursor, this`lineLen, buf, history
      ensures Valid()
      ensures State().(mode := Normal) == Arrow(old(State()), if up then 0x41 else 0x42)
      ensures mode == old(mode)
    {
      var line: Option<Line>;
      if up {
        line := history.Previous();
      } else {
        line := history.Next();
      }
      if line.Some? {
        Load(line.value);
      } else if !up {
        Wipe();
      }
    }

    method MoveRight()
      requires Valid() && cursor < lineLen
      modifies this`cursor
      ensures Valid() && State().(mode := Normal) == Arrow(old(State()), 0x43)
    {
      assert buf[..cursor + 1] == buf[..cursor] + [buf[cursor]];
      assert buf[cursor..lineLen][1..] == buf[cursor + 1..lineLen];
      cursor := cursor + 1;
    }

    method MoveLeft()
      requires Valid() && cursor > 0
      modifies this`cursor
      ensures Valid() && State().(mode := Normal) == Arrow(old(State()), 0x44)
    {
      assert buf[cursor - 1..lineLen] == [buf[cursor - 1]] + buf[cursor..lineLen];
      assert buf[..cursor][..cursor - 1] == buf[..cursor - 1];
      cursor := cursor - 1;
    }

    method HandleArrow(ch: Byte)
      requires Valid() && mode == EscapeSeq
      modifies this, buf, history
      ensures Valid() && buf == old(buf) && State() == Arrow(old(State()), ch)
    {
      if ch == 0x41 {
        Recall(true);
      } else if ch == 0x42 {
        Recall(false);
      } else if ch == 0x43 {
        if cursor < lineLen {
          MoveRight();
        }
      } else if ch == 0x44 {
        if cursor > 0 {
          MoveLeft();
        }
      }
      mode := Normal;
    }

    /** One turn of the input loop. */
    method Feed(ch: Byte)
      requires Valid()
      modifies this, buf, history
      ensures Valid() && buf == old(buf) && State() == Step(old(State()), dec, ch)
    {
      match mode
      case Normal => HandleKey(ch);
      case Escape => mode := if ch == 0x5b then EscapeSeq else Normal;
      case EscapeSeq => HandleArrow(ch);
    }

    /** Any input, from any state the console can be in. */
    method FeedAll(input: seq<Byte>)
      requires Valid()
      modifies this, buf, history
      ensures Valid() && buf == old(buf) && State() == Run(old(State()), dec, input)
    {
      for i := 0 to |input|
        invariant Valid() && buf == old(buf) && State() == Run(old(State()), dec, input[..i])
      {
        assert input[..i + 1][..i] == input[..i];
        Feed(input[i]);
      }
      assert input[..|input|] == input;
    }
  }
}
