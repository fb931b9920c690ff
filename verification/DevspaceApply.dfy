/** Applying a section to a file, stripping it again, and applying twice. */
module DevspaceApply {
  import opened Basics
  import opened Devspace

  function NewlineUnless(s: string, suffix: string): string {
    if s != "" && !EndsWith(s, suffix) then s + "\n" else s
  }

  /** A text that is not empty gets an empty line at its end. */
  function Pad(s: string): string {
    NewlineUnless(NewlineUnless(s, "\n"), "\n\n")
  }

  /** The text that `apply_patches` writes. */
  function Apply(contents: string, specs: seq<PatchSpec>): string {
    Pad(Strip(contents).0) + Section(specs)
  }

  /** `apply_patches`, from the text read to the text written; nothing is written for no patches. */
  method ApplyPatches(contents: string, specs: seq<PatchSpec>) returns (written: Option<string>)
    ensures written == if specs == [] then None else Some(Apply(contents, specs))
  {
    if specs == [] { return None; }
    var text := Strip(contents).0;
    if text != "" && !EndsWith(text, "\n") {
      text := text + "\n";
    }
    if text != "" && !EndsWith(text, "\n\n") {
      text := text + "\n";
    }
    var section := RenderSection(specs);
    text := text + section;
    EndsInNewline(Pad(Strip(contents).0), specs);
    if !EndsWith(text, "\n") {
      text := text + "\n";
    }
    written := Some(text);
  }

  lemma {:induction false} EndsInNewline(front: string, specs: seq<PatchSpec>)
    ensures EndsWith(front + Section(specs), "\n")
  {
    var s := Section(specs);
    assert s[|s| - 1..] == "\n";
    assert (front + s)[|front + s| - 1..] == s[|s| - 1..];
  }

  /** Padding adds line ends and nothing else, and adds none to a padded text. */
  lemma {:induction false} PadShape(s: string)
    ensures s <= Pad(s) && forall i :: |s| <= i < |Pad(s)| ==> Pad(s)[i] == '\n'
    ensures Pad(s) != "" ==> s != "" && Pad(s)[|Pad(s)| - 1] == '\n'
    ensures Pad(Pad(s)) == Pad(s)
  {
    if s != "" {
      OneNewline(s);
      TwoNewlines(NewlineUnless(s, "\n"));
    }
  }

  lemma {:induction false} OneNewline(s: string)
    requires s != ""
    ensures var a := NewlineUnless(s, "\n");
      s <= a && a[|a| - 1] == '\n' && forall i :: |s| <= i < |a| ==> a[i] == '\n'
  {
    if EndsWith(s, "\n") {
      assert s[|s| - 1] == s[|s| - 1..][0];
    }
  }

  lemma {:induction false} TwoNewlines(a: string)
    requires a != "" && a[|a| - 1] == '\n'
    ensures var b := NewlineUnless(a, "\n\n");
      && a <= b && b[|b| - 1] == '\n' && (forall i :: |a| <= i < |b| ==> b[i] == '\n')
      && EndsWith(b, "\n\n") && EndsWith(b, "\n")
  {
    var b := NewlineUnless(a, "\n\n");
    if !EndsWith(a, "\n\n") {
      assert b[|b| - 2..] == [a[|a| - 1]] + "\n";
    }
    assert b[|b| - 1..] == b[|b| - 2..][1..] == "\n";
  }

  lemma {:induction false} MarkerStays(c: string, more: string, pattern: string, k: nat)
    requires IsAt(c, k, pattern)
    ensures IsAt(c + more, k, pattern)
  {
    assert (c + more)[..|c|] == c;
    assert (c + more)[k..k + |pattern|] == c[k..k + |pattern|];
  }

  lemma {:induction false} MarkerEnds(s: string, k: nat, pattern: string, n: nat)
    requires OneLine(pattern) && IsAt(s, k, pattern) && n < |s| && k <= n && s[n] == '\n'
    ensures k + |pattern| <= n
  {
    if n < k + |pattern| { SpansNoNewline(s, k, pattern, n); }
  }

  lemma {:induction false} MarkerInFront(c: string, more: string, pattern: string, k: nat)
    requires IsAt(c + more, k, pattern) && k + |pattern| <= |c|
    ensures IsAt(c, k, pattern)
  {
    assert (c + more)[..|c|] == c;
    assert (c + more)[k..k + |pattern|] == c[k..k + |pattern|];
  }

  /** What padding and a section add to a text starts with a line end, if the text is padded at all. */
  lemma {:induction false} PadSplits(c: string) returns (fill: string)
    ensures Pad(c) == c + fill && forall i :: 0 <= i < |fill| ==> fill[i] == '\n'
  {
    PadShape(c);
    fill := Pad(c)[|c|..];
  }

  /** A marker that starts inside a padded text, whatever follows it, lies inside the text before padding. */
  lemma {:induction false} MarkerInText(c: string, fill: string, rest: string, pattern: string, k: nat)
    requires OneLine(pattern) && IsAt(c + fill + rest, k, pattern) && k < |c + fill|
    requires forall i :: 0 <= i < |fill| ==> fill[i] == '\n'
    requires fill == "" ==> c[|c| - 1] == '\n'
    ensures IsAt(c, k, pattern)
  {
    var s := c + fill + rest;
    if fill == "" {
      assert s[|c| - 1] == c[|c| - 1];
      MarkerEnds(s, k, pattern, |c| - 1);
    } else {
      var n := if k < |c| then |c| else k;
      assert s[n] == fill[n - |c|];
      MarkerEnds(s, k, pattern, n);
    }
    Assoc(c, fill, rest);
    MarkerInFront(c, fill + rest, pattern, k);
  }

  lemma {:induction false} MarkerBefore(c: string, rest: string, pattern: string, k: nat)
    requires OneLine(pattern) && k < |Pad(c)|
    ensures IsAt(Pad(c) + rest, k, pattern) <==> IsAt(c, k, pattern)
  {
    var fill := PadSplits(c);
    PadShape(c);
    if IsAt(c, k, pattern) {
      MarkerStays(c, fill + rest, pattern, k);
      Assoc(c, fill, rest);
    }
    if IsAt(Pad(c) + rest, k, pattern) {
      EmptyAppend(c);
      MarkerInText(c, fill, rest, pattern, k);
    }
  }

  lemma {:induction false} FramedStarts(body: string)
    ensures |Framed(body)| > |BEGIN| && Framed(body)[..|BEGIN|] == BEGIN
  {
    var a, b := BEGIN + "\n" + MANAGED + "\n", body + "\n" + END + "\n";
    Assoc(a, body, "\n");
    Assoc(a, body + "\n", END);
    Assoc(a, body + "\n" + END, "\n");
    assert Framed(body) == a + b;
    Assoc(BEGIN, "\n", MANAGED);
    Assoc(BEGIN, "\n" + MANAGED, "\n");
    assert a[..|BEGIN|] == BEGIN;
  }

  lemma {:induction false} BeginAtSection(front: string, specs: seq<PatchSpec>)
    ensures IsAt(front + Section(specs), |front|, BEGIN)
  {
    var s := Section(specs);
    FramedStarts(Body(Grouped(specs)));
    assert (front + s)[|front|..|front| + |BEGIN|] == s[..|BEGIN|];
  }

  lemma {:induction false} FirstBegin(c: string, specs: seq<PatchSpec>)
    requires Absent(c, BEGIN)
    ensures IsFirst(Pad(c) + Section(specs), BEGIN, |Pad(c)|)
  {
    var p, section := Pad(c), Section(specs);
    MarkersAreLines();
    forall k: nat | k < |p| ensures !IsAt(p + section, k, BEGIN) {
      MarkerBefore(c, section, BEGIN, k);
    }
    BeginAtSection(p, specs);
  }

  /** No patch writes an end marker into the section. */
  predicate EndFree(specs: seq<PatchSpec>) {
    !Has(Body(Grouped(specs)), END)
  }

  /** So it is when no source, crate name or path has a hash sign. */
  lemma {:induction false} HashFreeIsEndFree(specs: seq<PatchSpec>)
    requires NoHashIn(specs)
    ensures EndFree(specs)
  {
    var body := Body(Grouped(specs));
    GroupedClean(specs);
    BodyClean(Grouped(specs));
    HasIff(body, END);
    forall k: nat ensures !IsAt(body, k, END) {
      AtEnd(body, k);
      assert END[0] == '#';
    }
  }

  lemma {:induction false} SectionShape(specs: seq<PatchSpec>)
    ensures var s := Section(specs);
      |s| > |END| && s[|s| - 1] == '\n' && IsAt(s, |s| - 1 - |END|, END)
  {
    EndIsThere(Body(Grouped(specs)));
  }

  lemma {:induction false} SectionEnd(specs: seq<PatchSpec>)
    ensures var s := Section(specs);
      |s| > |END| && (IsFirst(s, END, |s| - 1 - |END|) <==> EndFree(specs))
  {
    FirstEnd(Body(Grouped(specs)));
  }

  lemma {:induction false} WithoutFrom(front: string, section: string, k: nat)
    requires section != "" && section[|section| - 1] == '\n' && k <= |front|
    ensures Without(front + section, k, |front| + |section| - 1) == front[..k]
  {
    var s := front + section;
    var tail := s[|s| - 1..];
    assert tail == [section[|section| - 1]] == "\n";
    assert |tail| == 1 && !("\r\n" <= tail) && "\n" <= tail;
    assert s[..k] == front[..k] && tail[1..] == "" && front[..k] + "" == front[..k];
  }

  lemma {:induction false} AtSuffix(s: string, k: nat, j: nat, pattern: string)
    requires k <= |s|
    ensures IsAt(s[k..], j, pattern) <==> IsAt(s, k + j, pattern)
  {
    if k + j + |pattern| <= |s| {
      assert s[k..][j..j + |pattern|] == s[k + j..k + j + |pattern|];
    }
  }

  lemma {:induction false} EndInText(c: string, section: string, k: nat, j: nat)
    requires k <= |c| && k + j < |Pad(c)|
    ensures IsAt((Pad(c) + section)[k..], j, END) <==> IsAt(c[k..], j, END)
  {
    PadLength(c);
    MarkersAreLines();
    MarkerBefore(c, section, END, k + j);
    AtBoth(c, Pad(c) + section, k, j, END);
  }

  lemma {:induction false} AtBoth(c: string, s: string, k: nat, j: nat, pattern: string)
    requires k <= |c| && k <= |s| && (IsAt(s, k + j, pattern) <==> IsAt(c, k + j, pattern))
    ensures IsAt(s[k..], j, pattern) <==> IsAt(c[k..], j, pattern)
  {
    AtSuffix(s, k, j, pattern);
    AtSuffix(c, k, j, pattern);
  }

  lemma {:induction false} EndInSection(p: string, section: string, k: nat, j: nat)
    requires k <= |p| <= k + j
    ensures IsAt((p + section)[k..], j, END) <==> IsAt(section, k + j - |p|, END)
  {
    var s := p + section;
    AtSuffix(s, k, j, END);
    assert s[|p|..] == section;
    AtSuffix(s, |p|, k + j - |p|, END);
  }

  lemma {:induction false} EndPlace(c: string, section: string, end: nat, k: nat, j: nat)
    requires k <= |c| && Absent(c[k..], END) && IsFirst(section, END, end) && k + j <= |Pad(c)| + end
    ensures IsAt((Pad(c) + section)[k..], j, END) <==> k + j == |Pad(c)| + end
  {
    PadShape(c);
    if k + j < |Pad(c)| {
      EndInText(c, section, k, j);
    } else {
      EndInSection(Pad(c), section, k, j);
    }
  }

  /** Seen from a place with no end marker after it, the first one is that of the section. */
  lemma {:induction false} EndSeenFrom(c: string, section: string, end: nat, k: nat, e: int)
    requires k <= |c| && Absent(c[k..], END) && IsFirst(section, END, end) && e == |Pad(c)| - k + end
    ensures k <= |Pad(c)| && 0 <= e && IsFirst((Pad(c) + section)[k..], END, e)
  {
    PadShape(c);
    forall j: nat | k + j <= |Pad(c)| + end
      ensures IsAt((Pad(c) + section)[k..], j, END) <==> k + j == |Pad(c)| + end
    {
      EndPlace(c, section, end, k, j);
    }
  }

  lemma {:induction false} StrayFirst(c: string, section: string, k: nat)
    requires IsFirst(c, BEGIN, k)
    ensures k < |c| <= |Pad(c)| && IsFirst(Pad(c) + section, BEGIN, k)
  {
    PadShape(c);
    MarkersAreLines();
    forall j: nat | j <= k ensures IsAt(Pad(c) + section, j, BEGIN) <==> j == k {
      MarkerBefore(c, section, BEGIN, j);
    }
  }

  lemma {:induction false} PadTake(c: string, k: nat)
    requires k <= |c|
    ensures k <= |Pad(c)| && Pad(c)[..k] == c[..k]
  {
    PadShape(c);
  }

  /** A whole section inside the text is stripped in place of the one that follows the text. */
  lemma {:induction false} InnerStripped(s: string, section: string, k: nat, e: nat)
    requires IsFirst(s, BEGIN, k) && IsFirst(s[k..], END, e)
    ensures k + e + |END| <= |s| <= |Pad(s)|
    ensures Strip(Pad(s) + section) == (Without(Pad(s) + section, k, k + e + |END|), true)
  {
    StrayFirst(s, section, k);
    InnerEnd(s, section, k, e);
    StripAt(Pad(s) + section, k, e);
  }

  lemma {:induction false} StripAt(text: string, k: nat, e: nat)
    requires IsFirst(text, BEGIN, k) && IsFirst(text[k..], END, e)
    ensures k + e + |END| <= |text| && Strip(text) == (Without(text, k, k + e + |END|), true)
  {
    FindIs(text, BEGIN, k);
    FindIs(text[k..], END, e);
  }

  lemma {:induction false} InnerEnd(s: string, section: string, k: nat, e: nat)
    requires k <= |s| && IsFirst(s[k..], END, e)
    ensures k + e + |END| <= |s| <= |Pad(s)| && IsFirst((Pad(s) + section)[k..], END, e)
  {
    PadShape(s);
    forall j: nat | j <= e ensures IsAt((Pad(s) + section)[k..], j, END) <==> IsAt(s[k..], j, END) {
      EndInText(s, section, k, j);
    }
  }

  lemma {:induction false} PaddedEnd(s: string)
    requires s != ""
    ensures Pad(s) != "" && EndsWith(Pad(s), "\n\n")
  {
    OneNewline(s);
    TwoNewlines(NewlineUnless(s, "\n"));
  }

  // ---- what stripping takes off an applied section, exactly

  lemma {:induction false} EndHashes(i: nat)
    requires 0 < i < |END|
    ensures END[i] != '#'
  {
  }

  lemma {:induction false} EndCharAt(s: string, k: nat, i: nat)
    requires IsAt(s, k, END) && i < |END|
    ensures s[k + i] == END[i]
  {
    assert s[k..k + |END|][i] == s[k + i];
  }

  lemma {:induction false} HashAtEnd(s: string, k: nat)
    requires IsAt(s, k, END)
    ensures s[k] == '#'
  {
    EndCharAt(s, k, 0);
  }

  lemma {:induction false} NoHashInEnd(s: string, k: nat, i: nat)
    requires IsAt(s, k, END) && k < i < k + |END|
    ensures s[i] != '#'
  {
    EndCharAt(s, k, i - k);
    EndHashes(i - k);
  }

  /** End markers do not overlap. */
  lemma {:induction false} EndsApart(s: string, i: nat, j: nat)
    requires IsAt(s, i, END) && IsAt(s, j, END) && i < j
    ensures i + |END| <= j
  {
    HashAtEnd(s, j);
    if j < i + |END| { NoHashInEnd(s, i, j); }
  }

  /** Where the last end marker of an applied section stands. */
  function LastEnd(text: string): int {
    |text| - 1 - |END|
  }

  lemma {:induction false} AppliedEnd(p: string, specs: seq<PatchSpec>)
    ensures var text := p + Section(specs);
      LastEnd(text) >= |p| && IsAt(text, LastEnd(text), END) && text[|text| - 1] == '\n'
  {
    var section := Section(specs);
    var text := p + section;
    SectionShape(specs);
    assert text[|p|..] == section;
    AtSuffix(text, |p|, |section| - 1 - |END|, END);
  }

  lemma {:induction false} AppliedBegin(s: string, specs: seq<PatchSpec>) returns (a: nat)
    ensures IsFirst(Pad(s) + Section(specs), BEGIN, a) && a <= |Pad(s)|
    ensures a == |Pad(s)| <==> !Has(s, BEGIN)
  {
    HasIff(s, BEGIN);
    if Has(s, BEGIN) {
      a := Find(s, BEGIN).value;
      StrayFirst(s, Section(specs), a);
    } else {
      a := |Pad(s)|;
      FirstBegin(s, specs);
    }
  }

  /** Stripping takes off what stands from the first begin marker, at `a`, to the end, at `b`, of an end marker. */
  ghost predicate Cuts(text: string, a: nat, b: nat) {
    && a + |END| <= b <= |text| && IsFirst(text, BEGIN, a) && IsFirst(text[a..], END, b - |END| - a)
    && Strip(text) == (Without(text, a, b), true)
  }

  lemma {:induction false} FirstEndFrom(text: string, a: nat, last: nat) returns (e: nat)
    requires a <= last && IsAt(text, last, END)
    ensures IsFirst(text[a..], END, e) && a + e <= last && IsAt(text, a + e, END)
  {
    AtSuffix(text, a, last - a, END);
    HasIff(text[a..], END);
    e := Find(text[a..], END).value;
    AtSuffix(text, a, e, END);
  }

  lemma {:induction false} CutsAt(text: string, a: nat, e: nat, b: nat)
    requires b == a + e + |END| && IsFirst(text, BEGIN, a) && IsFirst(text[a..], END, e)
    ensures Cuts(text, a, b)
  {
    StripAt(text, a, e);
  }

  /** From a begin marker on, the first end marker is the last one or ends before it. */
  lemma {:induction false} CutEnd(text: string, a: nat, last: nat) returns (b: nat)
    requires a <= last && IsFirst(text, BEGIN, a) && IsAt(text, last, END)
    ensures Cuts(text, a, b) && (b == last + |END| || b <= last)
  {
    var e := FirstEndFrom(text, a, last);
    b := a + e + |END|;
    CutsAt(text, a, e, b);
    if a + e < last { EndsApart(text, a + e, last); }
  }

  lemma {:induction false} CutPlace(s: string, specs: seq<PatchSpec>) returns (a: nat, b: nat)
    ensures var text := Pad(s) + Section(specs);
      && Cuts(text, a, b) && a <= |Pad(s)| && (a == |Pad(s)| <==> !Has(s, BEGIN))
      && (b == |text| - 1 || b <= LastEnd(text))
  {
    var text := Pad(s) + Section(specs);
    a := AppliedBegin(s, specs);
    AppliedEnd(Pad(s), specs);
    b := CutEnd(text, a, LastEnd(text));
  }

  /** The rest that is kept behind the cut: a line end is skipped, and never a part of an end marker. */
  lemma {:induction false} KeptTail(text: string, a: nat, b: nat, last: nat) returns (c: nat)
    requires a <= b <= last && IsAt(text, last, END)
    ensures b <= c <= last && c <= b + 2 && (text[b] == '\n' ==> c <= b + 1)
    ensures Without(text, a, b) == text[..a] + text[c..]
  {
    var tail := text[b..];
    EndCharAt(text, last, 0);
    assert END[0] == '#' && tail[last - b] == '#';
    var skip := if "\r\n" <= tail then 2 else if "\n" <= tail then 1 else 0;
    c := b + skip;
    assert "\r\n" <= tail ==> tail[0] == '\r' && tail[1] == '\n';
    assert "\n" <= tail ==> tail[0] == '\n';
    assert tail[skip..] == text[c..];
  }

  /** A text that keeps the section's end does not end in an empty line, and gets one line end by padding. */
  lemma {:induction false} KeptPad(text: string, a: nat, c: nat)
    requires a <= c && 0 <= c <= LastEnd(text) && IsAt(text, LastEnd(text), END) && text[|text| - 1] == '\n'
    ensures var r := text[..a] + text[c..];
      && |r| >= 2 && r[|r| - 2] != '\n' && Pad(r) == r + "\n"
  {
    var r := text[..a] + text[c..];
    var last := LastEnd(text);
    EndCharAt(text, last, |END| - 1);
    assert r[|r| - 2] == text[|text| - 2] == END[|END| - 1] == '<';
    assert r[|r| - 1] == '\n';
    PadOnce(r);
  }

  lemma {:induction false} PadOnce(r: string)
    requires |r| >= 2 && r[|r| - 1] == '\n' && r[|r| - 2] != '\n'
    ensures Pad(r) == r + "\n"
  {
    assert r[|r| - 1..] == "\n";
    assert r[|r| - 2..][0] == r[|r| - 2] && "\n\n"[0] == '\n';
  }

  /** The cut ends at the last end marker iff, with the section alone cut, no patch wrote one. */
  lemma {:induction false} CutsSection(s: string, specs: seq<PatchSpec>, b: nat)
    requires Cuts(Pad(s) + Section(specs), |Pad(s)|, b)
    ensures b == |Pad(s) + Section(specs)| - 1 <==> EndFree(specs)
  {
    var p, section := Pad(s), Section(specs);
    assert (p + section)[|p|..] == section;
    SectionShape(specs);
    SectionEnd(specs);
  }

  /** A cut that ends before the last end marker leaves more than the padded text, or another text. */
  lemma {:induction false} ShortCut(s: string, specs: seq<PatchSpec>, a: nat, b: nat) returns (k: nat)
    requires var text := Pad(s) + Section(specs); Cuts(text, a, b) && a <= |Pad(s)| && b <= LastEnd(text)
    ensures var text := Pad(s) + Section(specs);
      && b <= k <= LastEnd(text) && k <= b + 2 && (text[b] == '\n' ==> k <= b + 1)
      && Without(text, a, b) == text[..a] + text[k..] && Pad(Without(text, a, b)) == text[..a] + text[k..] + "\n"
      && Without(text, a, b) != Pad(s)
  {
    var text := Pad(s) + Section(specs);
    AppliedEnd(Pad(s), specs);
    k := KeptTail(text, a, b, LastEnd(text));
    KeptPad(text, a, k);
    if Pad(s) != "" { PaddedLast(s); }
  }

  /** A cut that ends at the last end marker leaves what stands before it. */
  lemma {:induction false} LongCut(s: string, specs: seq<PatchSpec>, a: nat, b: nat)
    requires var text := Pad(s) + Section(specs); Cuts(text, a, b) && a <= |Pad(s)| && b == |text| - 1
    ensures Without(Pad(s) + Section(specs), a, b) == Pad(s)[..a]
  {
    SectionShape(specs);
    WithoutFrom(Pad(s), Section(specs), a);
  }

  lemma {:induction false} StrayEnd(s: string, specs: seq<PatchSpec>, k: nat, e: int)
    requires k <= |s| && Absent(s[k..], END) && EndFree(specs)
    requires e == |Pad(s) + Section(specs)| - 1 - |END| - k
    ensures e >= 0 && k <= |Pad(s)| && IsFirst((Pad(s) + Section(specs))[k..], END, e)
  {
    var section := Section(specs);
    SectionShape(specs);
    SectionEnd(specs);
    EndSeenFrom(s, section, |section| - 1 - |END|, k, e);
  }

  /** A begin marker without an end is taken for the section's own: everything from it on is lost. */
  lemma {:induction false} StrayBegin(s: string, specs: seq<PatchSpec>, k: nat)
    requires !Strip(s).1 && EndFree(specs) && Find(s, BEGIN) == Some(k)
    ensures k < |s| && Strip(Pad(s) + Section(specs)) == (s[..k], true)
  {
    HasIff(s, BEGIN);
    HasIff(s[k..], END);
    StrayIsLost(s, specs, k);
  }

  lemma {:induction false} StrayIsLost(s: string, specs: seq<PatchSpec>, k: nat)
    requires IsFirst(s, BEGIN, k) && Absent(s[k..], END) && EndFree(specs)
    ensures k < |s| && Strip(Pad(s) + Section(specs)) == (s[..k], true)
  {
    var text := Pad(s) + Section(specs);
    var b := |text| - 1;
    StrayFirst(s, Section(specs), k);
    StrayEnd(s, specs, k, b - |END| - k);
    CutsAt(text, k, b - |END| - k, b);
    LongCut(s, specs, k, b);
    PadTake(s, k);
  }

  /**
   * Stripping undoes applying, up to the padding of what the file held besides its old section, if and only
   * if that rest has no begin marker and no patch has an end marker in it.
   */
  lemma {:induction false} StripUndoesApplyIff(c: string, specs: seq<PatchSpec>)
    ensures var s := Strip(c).0;
      Strip(Apply(c, specs)) == (Pad(s), true) <==> !Has(s, BEGIN) && EndFree(specs)
  {
    var s := Strip(c).0;
    var a, b := CutPlace(s, specs);
    if a == |Pad(s)| { CutsSection(s, specs, b); }
    if b == |Pad(s) + Section(specs)| - 1 {
      LongCut(s, specs, a, b);
      assert Pad(s)[..|Pad(s)|] == Pad(s);
    } else {
      var k := ShortCut(s, specs, a, b);
    }
  }

  lemma {:induction false} PaddedLast(s: string)
    requires Pad(s) != ""
    ensures |Pad(s)| >= 2 && Pad(s)[|Pad(s)| - 2] == '\n'
  {
    PadShape(s);
    PaddedEnd(s);
    assert Pad(s)[|Pad(s)| - 2..][0] == Pad(s)[|Pad(s)| - 2];
  }

  /** A file without a section comes back as it was, up to its padding. */
  lemma {:induction false} StripUndoesApply(c: string, specs: seq<PatchSpec>)
    requires !Has(c, BEGIN) && EndFree(specs)
    ensures Apply(c, specs) == Pad(c) + Section(specs)
    ensures Strip(Apply(c, specs)) == (Pad(c), true)
  {
    StripUndoesApplyIff(c, specs);
  }

  // ---- applying twice

  /** A text that is its own rest from `|w|` on with `w` behind it starts with a rotation of `w`. */
  lemma {:induction false} Rotated(q: string, w: string) returns (t: nat)
    requires w != "" && |w| <= |q| && q == q[|w|..] + w
    ensures t < |w| && q[..|w|] == w[t..] + w[..t]
    decreases |q|
  {
    var n, rest := |w|, q[|w|..];
    if |rest| >= n {
      assert rest == rest[n..] + w by { RestAgain(q, rest, w); }
      t := Rotated(rest, w);
      assert q[..n] == rest[..n];
    } else {
      t := if rest == "" then 0 else n - |rest|;
      RotatedOnce(q, rest, w, t);
    }
  }

  lemma {:induction false} RestAgain(q: string, rest: string, w: string)
    requires |w| <= |rest| && q == rest + w && rest == q[|w|..]
    ensures rest == rest[|w|..] + w
  {
    assert (rest + w)[|w|..] == rest[|w|..] + w;
  }

  lemma {:induction false} RotatedOnce(q: string, rest: string, w: string, t: nat)
    requires w != "" && |rest| < |w| && q == rest + w && rest == q[|w|..]
    requires t == if rest == "" then 0 else |w| - |rest|
    ensures q[..|w|] == w[t..] + w[..t]
  {
    var n := |w|;
    assert rest == w[n - |rest|..] by { assert (rest + w)[n..] == w[n - |rest|..]; }
    assert q[..n] == rest + w[..n - |rest|];
    if rest == "" {
      assert w[..n] == w && w[0..] == w && w[..0] == "";
    }
  }

  /** If padding what is kept gives the padded text, the cut is as long as the section and one line end. */
  lemma {:induction false} CutLength(p: string, section: string, a: nat, c: nat)
    requires a <= |p| && a <= c <= |p + section| && (p + section)[..a] + (p + section)[c..] + "\n" == p
    ensures c == a + |section| + 1
  {
  }

  /** The rest of the padded text from the cut on, in the case that the cut ends inside it. */
  lemma {:induction false} CutRest(p: string, section: string, a: nat, c: nat)
    requires a <= c <= |p| && c == a + |section| + 1
    requires (p + section)[..a] + (p + section)[c..] + "\n" == p
    ensures var q, w := p[a..], section + "\n";
      |w| <= |q| && q == q[|w|..] + w
  {
    var q, w := p[a..], section + "\n";
    var text := p + section;
    assert text[..a] == p[..a] && text[c..] == p[c..] + section;
    assert p[c..] == q[|w|..];
    Assoc(p[..a], p[c..] + section, "\n");
    Assoc(p[c..], section, "\n");
    assert (p[..a] + (p[c..] + w))[a..] == p[c..] + w;
  }

  /** The kept end of the section then stands at the end of the padded text. */
  lemma {:induction false} KeptEndInside(p: string, section: string, a: nat, c: nat, last: nat)
    requires a <= |p| && a <= c <= last && c == a + |section| + 1 && last == LastEnd(p + section)
    requires (p + section)[..a] + (p + section)[c..] + "\n" == p && IsAt(p + section, last, END)
    ensures a <= |p| - 2 - |END| && IsAt(p, |p| - 2 - |END|, END)
  {
    var text, g := p + section, |p| - 2 - |END|;
    var r := text[..a] + text[c..];
    assert g == a + (last - c);
    assert r[g..g + |END|] == text[last..last + |END|];
    MarkerStays(r, "\n", END, g);
  }

  /** It cannot end behind the padded text: that would hold the section's end, and so an earlier end marker. */
  lemma {:induction false} CutEndsInside(p: string, section: string, a: nat, b: nat, c: nat)
    requires var text := p + section;
      && a <= |p| && Cuts(text, a, b) && b <= c <= b + 2 && c <= LastEnd(text)
      && IsAt(text, LastEnd(text), END) && text[..a] + text[c..] + "\n" == p
    ensures c <= |p|
  {
    var g := |p| - 2 - |END|;
    CutLength(p, section, a, c);
    KeptEndInside(p, section, a, c, LastEnd(p + section));
    EndFromCut(p, section, a, b, g);
  }

  ghost predicate SectionLike(section: string) {
    |section| > |END| && IsAt(section, LastEnd(section), END) && section[|section| - 1] == '\n'
  }

  lemma {:induction false} NoHashBehind(section: string, t: nat)
    requires SectionLike(section) && LastEnd(section) < t <= |section|
    ensures (section + "\n")[t] != '#'
  {
    var last := LastEnd(section);
    if t < last + |END| { NoHashInEnd(section, last, t); }
  }

  lemma {:induction false} RotatedAt(q: string, w: string, t: nat, k: nat)
    requires t < |w| <= |q| && q[..|w|] == w[t..] + w[..t] && k + |END| <= |w| - t && IsAt(w, t + k, END)
    ensures IsAt(q, k, END)
  {
    AtSuffix(w, t, k, END);
    MarkerStays(w[t..], w[..t], END, k);
    assert q == q[..|w|] + q[|w|..];
    MarkerStays(q[..|w|], q[|w|..], END, k);
  }

  /** In a rotation of the section that starts with a hash sign, the section's end marker stands whole. */
  lemma {:induction false} RotatedEnd(q: string, section: string, t: nat)
    requires SectionLike(section)
    requires var w := section + "\n"; t < |w| <= |q| && q[..|w|] == w[t..] + w[..t] && q[0] == '#'
    ensures t <= LastEnd(section) && IsAt(q, LastEnd(section) - t, END)
  {
    var w, last := section + "\n", LastEnd(section);
    assert w[t] == (w[t..] + w[..t])[0] == q[..|w|][0] == q[0];
    if t > last { NoHashBehind(section, t); }
    MarkerStays(section, "\n", END, last);
    RotatedAt(q, w, t, last - t);
  }

  /** A cut inside the padded text that leaves the same text behind, up to padding. */
  ghost predicate CutLeavesSame(p: string, section: string, a: nat, b: nat, c: nat) {
    var text := p + section;
    && SectionLike(section) && a < |p| && Cuts(text, a, b) && b <= c <= b + 2 && c <= LastEnd(text)
    && IsAt(text, LastEnd(text), END) && text[..a] + text[c..] + "\n" == p
  }

  /** The padded text from the cut on then starts with a rotation of the section, and so with an end marker in it. */
  lemma {:induction false} SameIsRotated(p: string, section: string, a: nat, b: nat, c: nat) returns (t: nat)
    requires CutLeavesSame(p, section, a, b, c)
    ensures var w := section + "\n";
      && c == a + |w| <= |p| && t < |w| && p[a..][..|w|] == w[t..] + w[..t] && p[a] == '#'
  {
    CutLength(p, section, a, c);
    CutEndsInside(p, section, a, b, c);
    CutRest(p, section, a, c);
    t := Rotated(p[a..], section + "\n");
    BeginHash(p + section, a);
  }

  /** What follows: the rotation is none, and the line end behind the cut was taken for two characters. */
  lemma {:induction false} CutWouldBe(p: string, section: string, a: nat, b: nat, c: nat)
    requires CutLeavesSame(p, section, a, b, c)
    ensures b < |p + section| && (p + section)[b] == '\n' && c == b + 2
  {
    var t := SameIsRotated(p, section, a, b, c);
    RotatedCut(p, section, a, b, t);
    NoRotation(a, b, c, |section|, t);
    LineEndAtCut(p, section, a, b, t);
  }

  lemma {:induction false} RotatedCut(p: string, section: string, a: nat, b: nat, t: nat)
    requires SectionLike(section) && a < |p| && Cuts(p + section, a, b) && p[a] == '#'
    requires var w := section + "\n"; a + |w| <= |p| && t < |w| && p[a..][..|w|] == w[t..] + w[..t]
    ensures b <= a + |section| - 1 - t
  {
    RotatedEnd(p[a..], section, t);
    var k := LastEnd(section) - t;
    AtSuffix(p, a, k, END);
    EndFromCut(p, section, a, b, a + k);
  }

  lemma {:induction false} NoRotation(a: nat, b: nat, c: nat, n: nat, t: nat)
    requires c == a + n + 1 && c <= b + 2 && b <= a + n - 1 - t
    ensures t == 0 && b == a + n - 1 && c == b + 2
  {
  }

  lemma {:induction false} LineEndAtCut(p: string, section: string, a: nat, b: nat, t: nat)
    requires section != "" && section[|section| - 1] == '\n' && a + |section| + 1 <= |p| && b == a + |section| - 1
    requires t == 0 && p[a..][..|section| + 1] == (section + "\n")[t..] + (section + "\n")[..t]
    ensures (p + section)[b] == '\n'
  {
    var w := section + "\n";
    assert w[t..] + w[..t] == w;
    assert p[b] == p[a..][..|w|][|section| - 1];
  }

  /** A cut inside the padded text never leaves the same text behind, not even up to padding. */
  lemma {:induction false} CutLoses(p: string, section: string, a: nat, b: nat, c: nat)
    requires SectionLike(section)
    requires var text := p + section;
      && a < |p| && Cuts(text, a, b) && b <= c <= b + 2 && c <= LastEnd(text)
      && (text[b] == '\n' ==> c <= b + 1) && IsAt(text, LastEnd(text), END)
    ensures var text := p + section; text[..a] + text[c..] + "\n" != p
  {
    if CutLeavesSame(p, section, a, b, c) {
      CutWouldBe(p, section, a, b, c);
    }
  }

  lemma {:induction false} BeginHash(s: string, k: nat)
    requires IsAt(s, k, BEGIN)
    ensures s[k] == '#'
  {
    assert s[k] == s[k..k + |BEGIN|][0] == BEGIN[0];
  }

  lemma {:induction false} EndFromCut(p: string, section: string, a: nat, b: nat, k: nat)
    requires a <= k && Cuts(p + section, a, b) && IsAt(p, k, END)
    ensures b <= k + |END|
  {
    MarkerStays(p, section, END, k);
    NotBefore(p + section, a, b - |END| - a, k);
  }

  lemma {:induction false} NotBefore(text: string, a: nat, e: nat, k: nat)
    requires a <= |text| && a <= k && IsFirst(text[a..], END, e) && IsAt(text, k, END)
    ensures a + e <= k
  {
    AtSuffix(text, a, k - a, END);
  }

  /** A cut before the section's own begin marker leaves another text, also after padding. */
  lemma {:induction false} EarlyCut(s: string, specs: seq<PatchSpec>, a: nat, b: nat)
    requires var text := Pad(s) + Section(specs);
      Cuts(text, a, b) && a < |Pad(s)| && (b == |text| - 1 || b <= LastEnd(text))
    ensures Pad(Without(Pad(s) + Section(specs), a, b)) != Pad(s)
  {
    if b == |Pad(s) + Section(specs)| - 1 {
      LongCut(s, specs, a, b);
      PadLength(Pad(s)[..a]);
      BeginFits(s, Section(specs), a);
    } else {
      var k := ShortCut(s, specs, a, b);
      SectionShape(specs);
      AppliedEnd(Pad(s), specs);
      CutLoses(Pad(s), Section(specs), a, b, k);
    }
  }

  /** A cut from the section's own begin marker on leaves the padded text iff it takes the whole section. */
  lemma {:induction false} OwnCut(s: string, specs: seq<PatchSpec>, b: nat)
    requires var text := Pad(s) + Section(specs);
      Cuts(text, |Pad(s)|, b) && (b == |text| - 1 || b <= LastEnd(text))
    ensures Pad(Without(Pad(s) + Section(specs), |Pad(s)|, b)) == Pad(s) <==> EndFree(specs)
  {
    var p := Pad(s);
    CutsSection(s, specs, b);
    if b == |p + Section(specs)| - 1 {
      LongCut(s, specs, |p|, b);
      PadShape(s);
      assert p[..|p|] == p;
    } else {
      var k := ShortCut(s, specs, |p|, b);
    }
  }

  /**
   * Applying one list of patches and then another is applying the second alone if and only if what the file
   * holds besides its first section has no begin marker, and the first list has no end marker in it.
   */
  lemma {:induction false} ReapplyIff(c: string, first: seq<PatchSpec>, second: seq<PatchSpec>)
    ensures Apply(Apply(c, first), second) == Apply(c, second) <==> !Has(Strip(c).0, BEGIN) && EndFree(first)
  {
    var s := Strip(c).0;
    var a, b := CutPlace(s, first);
    SameFront(Pad(Without(Pad(s) + Section(first), a, b)), Pad(s), Section(second));
    if a == |Pad(s)| {
      OwnCut(s, first, b);
    } else {
      EarlyCut(s, first, a, b);
    }
  }

  lemma {:induction false} BeginFits(s: string, section: string, a: nat)
    requires a < |Pad(s)| && IsAt(Pad(s) + section, a, BEGIN)
    ensures a + 2 < |Pad(s)|
  {
    MarkersAreLines();
    MarkerBefore(s, section, BEGIN, a);
    PadLength(s);
  }

  lemma {:induction false} SameFront(a: string, b: string, tail: string)
    ensures a + tail == b + tail <==> a == b
  {
    if a + tail == b + tail {
      assert (a + tail)[..|a|] == a && (b + tail)[..|b|] == b;
    }
  }

  lemma {:induction false} PadLength(s: string)
    ensures |s| <= |Pad(s)| <= |s| + 2
  {
  }
}
