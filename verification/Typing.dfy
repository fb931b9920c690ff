/** The line editor against a plain text with a cursor position. */
module Typing {
  import opened Basics
  import opened History
  import opened LineEditor

  /** What a user does at the keyboard. */
  datatype Edit = Type(ch: Byte) | Erase(code: Byte) | Left | Right | Enter(code: Byte)

  /** Printable bytes are typed; each of two bytes erases, and each of two enters. */
  predicate IsEdit(a: Edit) {
    match a
    case Type(ch) => ch >= 32 && ch != 127
    case Erase(code) => code == 8 || code == 127
    case Enter(code) => code == 10 || code == 13
    case _ => true
  }

  predicate AreEdits(edits: seq<Edit>) {
    forall k :: 0 <= k < |edits| ==> IsEdit(edits[k])
  }

  /** The bytes the terminal sends for it. */
  function Sent(a: Edit): seq<Byte> {
    match a
    case Type(ch) => [ch]
    case Erase(code) => [code]
    case Left => [27, 91, 68]
    case Right => [27, 91, 67]
    case Enter(code) => [code]
  }

  function SentAll(edits: seq<Edit>): seq<Byte> {
    if edits == [] then [] else SentAll(edits[..|edits| - 1]) + Sent(edits[|edits| - 1])
  }

  /** A line of text, a position in it, and the lines entered so far. */
  datatype Page = Page(text: Line, at: nat, entered: seq<Line>)

  predicate OnPage(p: Page) {
    p.at <= |p.text|
  }

  /** What the edit is to do: a line holds at most 255 bytes, and an empty line is not entered. */
  function Edited(p: Page, a: Edit): (q: Page)
    requires OnPage(p)
    ensures OnPage(q)
  {
    match a
    case Type(ch) =>
      if |p.text| < 255 then p.(text := p.text[..p.at] + [ch] + p.text[p.at..], at := p.at + 1) else p
    case Erase(_) => if p.at > 0 then p.(text := p.text[..p.at - 1] + p.text[p.at..], at := p.at - 1) else p
    case Left => if p.at > 0 then p.(at := p.at - 1) else p
    case Right => if p.at < |p.text| then p.(at := p.at + 1) else p
    case Enter(_) => if p.text != [] then Page([], 0, p.entered + [p.text]) else p
  }

  function EditedAll(p: Page, edits: seq<Edit>): (q: Page)
    requires OnPage(p)
    ensures OnPage(q)
  {
    if edits == [] then p else Edited(EditedAll(p, edits[..|edits| - 1]), edits[|edits| - 1])
  }

  /** The editor shows the page. */
  predicate Shows(e: Editor, p: Page) {
    && e.mode == Normal && OnPage(p) && e.before == p.text[..p.at] && e.after == p.text[p.at..]
    && e.submitted == p.entered
  }

  lemma {:induction false} RunAppend(e: Editor, dec: Decoding, a: seq<Byte>, b: seq<Byte>)
    ensures LineEditor.Run(e, dec, a + b) == LineEditor.Run(LineEditor.Run(e, dec, a), dec, b)
    decreases |b|
  {
    if b == [] {
      EmptyAppend(a);
    } else {
      var n := |b| - 1;
      assert (a + b)[..|a + b| - 1] == a + b[..n] && (a + b)[|a + b| - 1] == b[n];
      RunAppend(e, dec, a, b[..n]);
    }
  }

  lemma {:induction false} RunOne(e: Editor, dec: Decoding, ch: Byte)
    ensures LineEditor.Run(e, dec, [ch]) == Step(e, dec, ch)
  {
    assert [ch][..0] == [];
  }

  lemma {:induction false} RunThree(e: Editor, dec: Decoding, a: Byte, b: Byte, c: Byte)
    ensures LineEditor.Run(e, dec, [a, b, c]) == Step(Step(Step(e, dec, a), dec, b), dec, c)
  {
    assert [a, b, c][..2] == [a, b] && [a, b][..1] == [a];
    RunOne(e, dec, a);
  }

  lemma {:induction false} TextSplits(p: Page)
    requires OnPage(p)
    ensures p.text[..p.at] + p.text[p.at..] == p.text
  {
  }

  lemma {:induction false} KeyShows(e: Editor, dec: Decoding, p: Page, a: Edit)
    requires Shows(e, p) && IsEdit(a) && (a.Type? || a.Erase?)
    ensures Shows(Step(e, dec, Sent(a)[0]), Edited(p, a))
  {
    TextSplits(p);
  }

  lemma {:induction false} EnterShows(e: Editor, dec: Decoding, p: Page, code: Byte)
    requires Shows(e, p) && IsEdit(Enter(code))
    ensures Shows(Step(e, dec, code), Edited(p, Enter(code)))
  {
    TextSplits(p);
  }

  lemma {:induction false} MoveShows(e: Editor, dec: Decoding, p: Page, a: Edit)
    requires Shows(e, p) && (a.Left? || a.Right?)
    ensures Shows(Step(Step(Step(e, dec, 27), dec, 91), dec, Sent(a)[2]), Edited(p, a))
  {
  }

  /** One edit does to the editor what it does to the page. */
  lemma {:induction false} EditShows(e: Editor, dec: Decoding, p: Page, a: Edit)
    requires Shows(e, p) && IsEdit(a)
    ensures Shows(LineEditor.Run(e, dec, Sent(a)), Edited(p, a))
  {
    if a.Left? || a.Right? {
      RunThree(e, dec, 27, 91, Sent(a)[2]);
      MoveShows(e, dec, p, a);
    } else {
      RunOne(e, dec, Sent(a)[0]);
      if a.Enter? {
        EnterShows(e, dec, p, a.code);
      } else {
        KeyShows(e, dec, p, a);
      }
    }
  }

  /** From any page on, typing, erasing, moving and entering do to the editor what they do to the page. */
  lemma {:induction false} EditsShow(e: Editor, dec: Decoding, p: Page, edits: seq<Edit>)
    requires Shows(e, p) && AreEdits(edits)
    ensures Shows(LineEditor.Run(e, dec, SentAll(edits)), EditedAll(p, edits))
    decreases |edits|
  {
    if edits != [] {
      var init, last := edits[..|edits| - 1], edits[|edits| - 1];
      EditsShow(e, dec, p, init);
      RunAppend(e, dec, SentAll(init), Sent(last));
      EditShows(LineEditor.Run(e, dec, SentAll(init)), dec, EditedAll(p, init), last);
    }
  }

  // ---- lines typed and entered

  function Typed(line: Line): seq<Edit> {
    seq(|line|, i requires 0 <= i < |line| => Type(line[i]))
  }

  predicate Printable(line: Line) {
    forall i :: 0 <= i < |line| ==> line[i] >= 32 && line[i] != 127
  }

  lemma {:induction false} TypedIsThere(p: Page, line: Line)
    requires p.text == [] && p.at == 0 && |line| <= 255
    ensures EditedAll(p, Typed(line)) == p.(text := line, at := |line|)
    decreases |line|
  {
    if line != [] {
      var n := |line| - 1;
      assert Typed(line)[..n] == Typed(line[..n]) && Typed(line)[n] == Type(line[n]);
      TypedIsThere(p, line[..n]);
      assert line[..n][..n] + [line[n]] + line[..n][n..] == line;
    }
  }

  /** A line that is typed and entered is what is submitted, and an empty one is not. */
  lemma {:induction false} TypedIsEntered(e: Editor, dec: Decoding, line: Line)
    requires e.mode == Normal && e.before == [] && e.after == [] && Printable(line) && |line| <= 255
    ensures var e' := LineEditor.Run(e, dec, SentAll(Typed(line) + [Enter(13)]));
      && e'.submitted == e.submitted + (if line == [] then [] else [line])
      && e'.mode == Normal && e'.before == [] && e'.after == []
  {
    var p, edits := Page([], 0, e.submitted), Typed(line) + [Enter(13)];
    EditsShow(e, dec, p, edits);
    assert edits[..|edits| - 1] == Typed(line) && edits[|edits| - 1] == Enter(13);
    TypedIsThere(p, line);
    EmptyAppend(e.submitted);
  }

  // ---- going back in the history

  function Ups(h: Hist, n: nat): (Hist, Option<Line>) {
    if n == 0 then (h, None) else Up(Ups(h, n - 1).0)
  }

  /** The n-th step back from the end shows the n-th line from the end, and further steps show none. */
  lemma {:induction false} UpsShow(h: Hist, n: nat)
    requires h.index == |h.lines| && n > 0
    ensures var (h', line) := Ups(h, n);
      && h'.lines == h.lines && h'.index == (if n <= |h.lines| then |h.lines| - n else 0)
      && line == if n <= |h.lines| then Some(h.lines[|h.lines| - n]) else None
  {
    if n > 1 {
      UpsShow(h, n - 1);
    }
  }

  /** Right after a command that is not blank, the first step back shows it. */
  lemma {:induction false} UpShowsLast(h: Hist, max: nat, line: Line)
    requires max >= 1
    ensures Up(Add(h, max, line, false)).1 == Some(line)
  {
  }
}
