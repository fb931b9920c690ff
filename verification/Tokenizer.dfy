/** Splitting a command line into tokens, with quotes and backslash escapes. */
module Tokenizer {
  /** `char::is_whitespace`: the code points with the White_Space property. */
  predicate IsSpace(c: char) {
    var n := c as int;
    || 0x9 <= n <= 0xd || n == 0x20 || n == 0x85 || n == 0xa0 || n == 0x1680
    || 0x2000 <= n <= 0x200a || n == 0x2028 || n == 0x2029 || n == 0x202f || n == 0x205f || n == 0x3000
  }

  datatype Scan = Scan(tokens: seq<string>, current: string, inQuotes: bool, escapeNext: bool)

  const START := Scan([], "", false, false)

  function Flush(s: Scan): Scan {
    if s.current == "" then s else s.(tokens := s.tokens + [s.current], current := "")
  }

  function Step(s: Scan, ch: char): Scan {
    if s.escapeNext then s.(current := s.current + [ch], escapeNext := false)
    else if ch == '\\' then s.(escapeNext := true)
    else if ch == '"' then s.(inQuotes := !s.inQuotes)
    else if IsSpace(ch) && !s.inQuotes then Flush(s)
    else s.(current := s.current + [ch])
  }

  function Scanned(s: Scan, input: string): Scan
    decreases |input|
  {
    if input == "" then s else Scanned(Step(s, input[0]), input[1..])
  }

  function Tokens(input: string): seq<string> {
    Flush(Scanned(START, input)).tokens
  }

  lemma {:induction false} ScannedAppend(s: Scan, a: string, b: string)
    ensures Scanned(s, a + b) == Scanned(Scanned(s, a), b)
    decreases |a|
  {
    if a == "" {
      assert a + b == b;
    } else {
      ScannedAppend(Step(s, a[0]), a[1..], b);
      assert (a + b)[1..] == a[1..] + b;
    }
  }

  /** `CommandParser::tokenize` */
  method Tokenize(input: string) returns (tokens: seq<string>)
    ensures tokens == Tokens(input)
  {
    tokens := [];
    var current, inQuotes, escapeNext := "", false, false;
    for i := 0 to |input|
      invariant Scan(tokens, current, inQuotes, escapeNext) == Scanned(START, input[..i])
    {
      var ch := input[i];
      assert input[..i + 1] == input[..i] + [ch];
      ScannedAppend(START, input[..i], [ch]);
      if escapeNext {
        current := current + [ch];
        escapeNext := false;
      } else if ch == '\\' {
        escapeNext := true;
      } else if ch == '"' {
        inQuotes := !inQuotes;
      } else if IsSpace(ch) && !inQuotes {
        if current != "" {
          tokens := tokens + [current];
          current := "";
        }
      } else {
        current := current + [ch];
      }
    }
    assert input[..|input|] == input;
    if current != "" {
      tokens := tokens + [current];
    }
  }

  // ---- writing tokens down

  /** A character between quotes: as it is, or after a backslash. */
  datatype QuotedChar = Raw(c: char) | Slashed(c: char)

  /** Part of a written token: a bare character, a character after a backslash, or a quoted stretch. */
  datatype Piece = Bare(c: char) | Escaped(c: char) | Quoted(inner: seq<QuotedChar>)

  predicate ProperPiece(p: Piece) {
    match p
    case Bare(c) => c != '\\' && c != '"' && !IsSpace(c)
    case Escaped(_) => true
    case Quoted(inner) => forall k :: 0 <= k < |inner| && inner[k].Raw? ==> inner[k].c != '\\' && inner[k].c != '"'
  }

  function InnerText(inner: seq<QuotedChar>): string {
    if inner == [] then "" else [inner[0].c] + InnerText(inner[1..])
  }

  function WriteInner(inner: seq<QuotedChar>): string {
    if inner == [] then "" else (if inner[0].Raw? then [inner[0].c] else ['\\', inner[0].c]) + WriteInner(inner[1..])
  }

  function PieceText(p: Piece): string {
    match p
    case Bare(c) => [c]
    case Escaped(c) => [c]
    case Quoted(inner) => InnerText(inner)
  }

  function WritePiece(p: Piece): string {
    match p
    case Bare(c) => [c]
    case Escaped(c) => ['\\', c]
    case Quoted(inner) => ['"'] + WriteInner(inner) + ['"']
  }

  function Text(pieces: seq<Piece>): string {
    if pieces == [] then "" else PieceText(pieces[0]) + Text(pieces[1..])
  }

  function Write(pieces: seq<Piece>): string {
    if pieces == [] then "" else WritePiece(pieces[0]) + Write(pieces[1..])
  }

  /** A written token and the white space before it. */
  datatype Word = Word(space: string, pieces: seq<Piece>)

  predicate AllSpace(s: string) {
    forall k :: 0 <= k < |s| ==> IsSpace(s[k])
  }

  predicate ProperWord(w: Word) {
    AllSpace(w.space) && Text(w.pieces) != "" && forall k :: 0 <= k < |w.pieces| ==> ProperPiece(w.pieces[k])
  }

  /** Proper words, with white space between any two of them. */
  predicate ProperLine(words: seq<Word>) {
    forall k :: 0 <= k < |words| ==> ProperWord(words[k]) && (k > 0 ==> words[k].space != "")
  }

  function WriteLine(words: seq<Word>): string {
    if words == [] then ""
    else WriteLine(words[..|words| - 1]) + words[|words| - 1].space + Write(words[|words| - 1].pieces)
  }

  function Texts(words: seq<Word>): seq<string> {
    if words == [] then [] else Texts(words[..|words| - 1]) + [Text(words[|words| - 1].pieces)]
  }

  /** `text` added to the token under way. */
  function Push(s: Scan, text: string): Scan {
    s.(current := s.current + text)
  }

  predicate Ready(s: Scan) {
    !s.inQuotes && !s.escapeNext
  }

  lemma {:induction false} ScanInner(s: Scan, inner: seq<QuotedChar>)
    requires s.inQuotes && !s.escapeNext && ProperPiece(Quoted(inner))
    ensures Scanned(s, WriteInner(inner)) == Push(s, InnerText(inner))
    decreases |inner|
  {
    if inner == [] {
      assert s.current + "" == s.current;
    } else {
      var q, s' := inner[0], s.(current := s.current + [inner[0].c]);
      var first := if q.Raw? then [q.c] else ['\\', q.c];
      assert Scanned(s, first) == s' by {
        if q.Slashed? {
          assert first[1..] == [q.c];
          assert Scanned(Step(s, '\\'), [q.c]) == Step(Step(s, '\\'), q.c);
        }
      }
      ScannedAppend(s, first, WriteInner(inner[1..]));
      ScanInner(s', inner[1..]);
      assert s.current + [q.c] + InnerText(inner[1..]) == s.current + ([q.c] + InnerText(inner[1..]));
    }
  }

  lemma {:induction false} ScanPiece(s: Scan, p: Piece)
    requires Ready(s) && ProperPiece(p)
    ensures Scanned(s, WritePiece(p)) == Push(s, PieceText(p))
  {
    match p
    case Bare(c) =>
    case Escaped(c) =>
      assert WritePiece(p)[1..] == [c];
      assert Scanned(Step(s, '\\'), [c]) == Step(Step(s, '\\'), c);
    case Quoted(inner) =>
      var open := Step(s, '"');
      ScannedAppend(s, ['"'] + WriteInner(inner), ['"']);
      ScannedAppend(s, ['"'], WriteInner(inner));
      assert Scanned(s, ['"']) == open;
      ScanInner(open, inner);
  }

  lemma {:induction false} ScanPieceThen(s: Scan, p: Piece, rest: string, text: string)
    requires Ready(s) && ProperPiece(p)
    requires Scanned(Push(s, PieceText(p)), rest) == Push(Push(s, PieceText(p)), text)
    ensures Scanned(s, WritePiece(p) + rest) == Push(s, PieceText(p) + text)
  {
    ScannedAppend(s, WritePiece(p), rest);
    ScanPiece(s, p);
    assert s.current + PieceText(p) + text == s.current + (PieceText(p) + text);
  }

  lemma {:induction false} ScanPieces(s: Scan, pieces: seq<Piece>)
    requires Ready(s) && forall k :: 0 <= k < |pieces| ==> ProperPiece(pieces[k])
    ensures Scanned(s, Write(pieces)) == Push(s, Text(pieces))
    decreases |pieces|
  {
    if pieces == [] {
      assert s.current + "" == s.current;
    } else {
      ScanPieces(Push(s, PieceText(pieces[0])), pieces[1..]);
      ScanPieceThen(s, pieces[0], Write(pieces[1..]), Text(pieces[1..]));
    }
  }

  lemma {:induction false} ScanSpace(s: Scan, space: string)
    requires Ready(s) && AllSpace(space)
    ensures Scanned(s, space) == if space == "" then s else Flush(s)
    decreases |space|
  {
    if space != "" {
      ScanSpace(Flush(s), space[1..]);
    }
  }

  lemma {:induction false} ScanLine(words: seq<Word>)
    requires ProperLine(words)
    ensures var s := Scanned(START, WriteLine(words));
      Ready(s) && Flush(s).tokens == Texts(words) && (words != [] ==> s.current != "")
  {
    if words != [] {
      var init, w := words[..|words| - 1], words[|words| - 1];
      ScanLine(init);
      var s := Scanned(START, WriteLine(init));
      ScannedAppend(START, WriteLine(init) + w.space, Write(w.pieces));
      ScannedAppend(START, WriteLine(init), w.space);
      ScanSpace(s, w.space);
      var s' := Flush(s);
      assert Scanned(s, w.space) == s' by {
        if w.space == "" { assert init == []; }
      }
      assert s'.current == "" && s'.tokens == Texts(init);
      ScanPieces(s', w.pieces);
      assert "" + Text(w.pieces) == Text(w.pieces);
    }
  }

  /** However its tokens are quoted, escaped and spaced, a written line is split into exactly those tokens. */
  lemma {:induction false} TokensOfLine(words: seq<Word>, tail: string)
    requires ProperLine(words) && AllSpace(tail)
    ensures Tokens(WriteLine(words) + tail) == Texts(words)
  {
    ScanLine(words);
    ScannedAppend(START, WriteLine(words), tail);
    ScanSpace(Scanned(START, WriteLine(words)), tail);
  }

  // ---- which token lists can be written

  lemma {:induction false} NoEmptyToken(s: Scan, input: string)
    requires forall k :: 0 <= k < |s.tokens| ==> s.tokens[k] != ""
    ensures forall k :: 0 <= k < |Scanned(s, input).tokens| ==> Scanned(s, input).tokens[k] != ""
    decreases |input|
  {
    if input != "" {
      NoEmptyToken(Step(s, input[0]), input[1..]);
    }
  }

  function EscapeAll(text: string): (pieces: seq<Piece>)
    ensures forall k :: 0 <= k < |pieces| ==> ProperPiece(pieces[k])
  {
    if text == "" then [] else [Escaped(text[0])] + EscapeAll(text[1..])
  }

  lemma {:induction false} EscapeAllText(text: string)
    ensures Text(EscapeAll(text)) == text
  {
    if text != "" {
      EscapeAllText(text[1..]);
      assert EscapeAll(text)[1..] == EscapeAll(text[1..]);
    }
  }

  lemma {:induction false} WordsFor(tokens: seq<string>) returns (words: seq<Word>)
    requires forall k :: 0 <= k < |tokens| ==> tokens[k] != ""
    ensures ProperLine(words) && Texts(words) == tokens
  {
    if tokens == [] {
      words := [];
    } else {
      var n := |tokens| - 1;
      var init := WordsFor(tokens[..n]);
      var last := Word(" ", EscapeAll(tokens[n]));
      EscapeAllText(tokens[n]);
      assert ProperWord(last);
      words := init + [last];
      assert words[..|words| - 1] == init;
      assert tokens == tokens[..n] + [tokens[n]];
    }
  }

  /** A list of tokens comes from some input if and only if none of them is empty. */
  lemma {:induction false} WritableIff(tokens: seq<string>)
    ensures (exists input :: Tokens(input) == tokens) <==> forall k :: 0 <= k < |tokens| ==> tokens[k] != ""
  {
    if input :| Tokens(input) == tokens {
      NoEmptyToken(START, input);
    }
    if forall k :: 0 <= k < |tokens| ==> tokens[k] != "" {
      var words := WordsFor(tokens);
      TokensOfLine(words, "");
    }
  }

  /** Of the ASCII characters, the blank, the tab and the four line and page ends separate tokens. */
  lemma {:induction false} AsciiSpaces(c: char)
    requires c as int < 128
    ensures IsSpace(c) <==> c in {' ', '\t', '\n', '\r'} || c as int in {11, 12}
  {
  }
}
