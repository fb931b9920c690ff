/** Reading a devspace section back, line by line. */
module DevspaceEntries {
  import opened Basics
  import opened Devspace

  // ---- a reader of sections

  /** What a section says of a crate. */
  datatype Patch = Patch(source: string, crateName: string, path: string)

  function LineOf(text: string): (l: string)
    ensures |l| <= |text| && '\n' !in l && l == text[..|l|] && (|l| < |text| ==> text[|l|] == '\n')
  {
    if text == "" || text[0] == '\n' then "" else [text[0]] + LineOf(text[1..])
  }

  /** What follows the first line. */
  function RestOf(text: string): (r: string)
    ensures text != "" ==> |r| < |text|
  {
    var n := |LineOf(text)|;
    if n < |text| then text[n + 1..] else ""
  }

  const OPEN: string := "[patch.\""
  const CLOSE: string := "\"]"
  const IS: string := " = { path = \""
  const DONE: string := "\" }"

  predicate IsHeader(l: string) {
    |OPEN| + |CLOSE| <= |l| && OPEN <= l && EndsWith(l, CLOSE)
  }

  function SourceIn(l: string): string
    requires IsHeader(l)
  {
    l[|OPEN|..|l| - |CLOSE|]
  }

  /** The text before the first blank. */
  function Word(l: string): (w: string)
    ensures |w| <= |l| && w == l[..|w|] && ' ' !in w
  {
    if l == "" || l[0] == ' ' then "" else [l[0]] + Word(l[1..])
  }

  predicate IsPatch(l: string) {
    var n := |Word(l)|;
    n > 0 && l[0] != '#' && n + |IS| + |DONE| <= |l| && IS <= l[n..] && EndsWith(l, DONE)
  }

  function PathIn(l: string): string
    requires IsPatch(l)
  {
    l[|Word(l)| + |IS|..|l| - |DONE|]
  }

  /** The patches of a text; lines that are neither headers nor patches are passed over. */
  function ReadPatches(text: string, source: string): seq<Patch>
    decreases |text|
  {
    if text == "" then []
    else
      var l, rest := LineOf(text), RestOf(text);
      if IsHeader(l) then ReadPatches(rest, SourceIn(l))
      else if IsPatch(l) then [Patch(source, Word(l), PathIn(l))] + ReadPatches(rest, source)
      else ReadPatches(rest, source)
  }

  // ---- lines

  lemma {:induction false} LineIs(l: string, rest: string)
    requires '\n' !in l
    ensures LineOf(l + "\n" + rest) == l && RestOf(l + "\n" + rest) == rest
    decreases |l|
  {
    var text := l + "\n" + rest;
    if l != "" {
      LineIs(l[1..], rest);
      assert text[1..] == l[1..] + "\n" + rest;
    }
    assert text[|l| + 1..] == rest;
  }

  /** A comment or an empty line says nothing. */
  lemma {:induction false} CommentIsPassed(l: string, rest: string, source: string)
    requires '\n' !in l && (l == "" || l[0] == '#')
    ensures ReadPatches(l + "\n" + rest, source) == ReadPatches(rest, source)
  {
    LineIs(l, rest);
    assert OPEN[0] == '[';
  }

  lemma {:induction false} HeaderIsRead(name: string, rest: string, source: string)
    requires '\n' !in name
    ensures ReadPatches(Header(name) + rest, source) == ReadPatches(rest, name)
  {
    var l := OPEN + name + CLOSE;
    assert Header(name) + rest == l + "\n" + rest;
    LineIs(l, rest);
    assert l[..|OPEN|] == OPEN && l[|l| - |CLOSE|..] == CLOSE && l[|OPEN|..|l| - |CLOSE|] == name;
  }

  lemma {:induction false} WordIs(w: string, rest: string)
    requires ' ' !in w && rest != "" && rest[0] == ' '
    ensures Word(w + rest) == w
    decreases |w|
  {
    if w != "" {
      WordIs(w[1..], rest);
      assert (w + rest)[1..] == w[1..] + rest;
    } else {
      assert w + rest == rest;
    }
  }

  predicate PlainName(name: string) {
    name != "" && name[0] != '#' && name[0] != '[' && ' ' !in name && '\n' !in name
  }

  function PatchLine(name: string, path: string): string {
    name + (IS + path + DONE)
  }

  lemma {:induction false} CrateLineIs(name: string, path: string)
    ensures CrateLine((name, path)) == PatchLine(name, path) + "\n"
  {
    assert DONE + "\n" == "\" }\n";
    assert name + (IS + path + DONE) + "\n" == name + IS + path + (DONE + "\n");
  }

  lemma {:induction false} WordOfLine(name: string, path: string)
    requires PlainName(name)
    ensures Word(PatchLine(name, path)) == name
  {
    assert (IS + path + DONE)[0] == IS[0] == ' ';
    WordIs(name, IS + path + DONE);
  }

  lemma {:induction false} SuffixOf(a: string, b: string, suffix: string)
    ensures EndsWith(a + (b + suffix), suffix)
  {
    var l := a + (b + suffix);
    assert l[|l| - |suffix|..] == suffix;
  }

  lemma {:induction false} LineIsPatch(name: string, path: string)
    requires PlainName(name)
    ensures var l := PatchLine(name, path); IsPatch(l) && !IsHeader(l) && PathIn(l) == path
  {
    var tail := IS + path + DONE;
    var l := name + tail;
    WordOfLine(name, path);
    SuffixOf(name, IS + path, DONE);
    assert l[|name|..] == tail && tail[..|IS|] == IS;
    assert l[|name| + |IS|..|l| - |DONE|] == path;
    assert l[0] == name[0] && OPEN[0] == '[';
  }

  lemma {:induction false} OneLine(name: string, path: string)
    requires PlainName(name) && '\n' !in path
    ensures '\n' !in PatchLine(name, path)
  {
    assert '\n' !in IS && '\n' !in DONE;
  }

  lemma {:induction false} PatchIsRead(name: string, path: string, rest: string, source: string)
    requires PlainName(name) && '\n' !in path
    ensures ReadPatches(CrateLine((name, path)) + rest, source)
      == [Patch(source, name, path)] + ReadPatches(rest, source)
  {
    CrateLineIs(name, path);
    OneLine(name, path);
    LineIs(PatchLine(name, path), rest);
    WordOfLine(name, path);
    LineIsPatch(name, path);
  }

  // ---- sections

  predicate PlainCrates(crates: Entries<string>) {
    forall k :: 0 <= k < |crates| ==> PlainName(crates[k].0) && '\n' !in crates[k].1
  }

  predicate PlainGroups(g: Groups) {
    forall k :: 0 <= k < |g| ==> '\n' !in g[k].0 && PlainCrates(g[k].1)
  }

  function PatchesOf(source: string, crates: Entries<string>): (r: seq<Patch>)
    ensures |r| == |crates|
  {
    seq(|crates|, k requires 0 <= k < |crates| => Patch(source, crates[k].0, crates[k].1))
  }

  lemma {:induction false} CratesAreRead(crates: Entries<string>, rest: string, source: string)
    requires PlainCrates(crates)
    ensures ReadPatches(CrateLines(crates) + rest, source) == PatchesOf(source, crates) + ReadPatches(rest, source)
    decreases |crates|
  {
    if crates == [] {
      EmptyAppend(rest);
      EmptyAppend(ReadPatches(rest, source));
    } else {
      var init, name, path := crates[..|crates| - 1], crates[|crates| - 1].0, crates[|crates| - 1].1;
      assert crates == init + [(name, path)];
      Assoc(CrateLines(init), CrateLine((name, path)), rest);
      CratesAreRead(init, CrateLine((name, path)) + rest, source);
      PatchIsRead(name, path, rest, source);
      Assoc(PatchesOf(source, init), [Patch(source, name, path)], ReadPatches(rest, source));
      PatchesSnoc(source, init, (name, path));
    }
  }

  lemma {:induction false} PatchesSnoc(source: string, init: Entries<string>, last: (string, string))
    ensures PatchesOf(source, init + [last]) == PatchesOf(source, init) + [Patch(source, last.0, last.1)]
  {
  }

  /** All patches of the groups, in order. */
  function AllPatches(g: Groups): seq<Patch> {
    if g == [] then [] else AllPatches(g[..|g| - 1]) + PatchesOf(g[|g| - 1].0, g[|g| - 1].1)
  }

  function LastSource(g: Groups, source: string): string {
    if g == [] then source else g[|g| - 1].0
  }

  lemma {:induction false} GroupIsRead(group: (string, Entries<string>), rest: string, source: string)
    requires '\n' !in group.0 && PlainCrates(group.1)
    ensures ReadPatches(GroupText(group) + rest, source) == PatchesOf(group.0, group.1) + ReadPatches(rest, group.0)
  {
    Assoc(Header(group.0), CrateLines(group.1), rest);
    HeaderIsRead(group.0, CrateLines(group.1) + rest, source);
    CratesAreRead(group.1, rest, group.0);
  }

  lemma {:induction false} SeparatorIsPassed(more: bool, rest: string, source: string)
    ensures ReadPatches(Separator(more) + rest, source) == ReadPatches(rest, source)
  {
    if more {
      assert "\n" + rest == "" + "\n" + rest;
      CommentIsPassed("", rest, source);
    } else {
      EmptyAppend(rest);
    }
  }

  lemma {:induction false} BodyIsRead(g: Groups, rest: string, source: string)
    requires PlainGroups(g)
    ensures ReadPatches(Body(g) + rest, source) == AllPatches(g) + ReadPatches(rest, LastSource(g, source))
    decreases |g|
  {
    if g == [] {
      EmptyAppend(rest);
      EmptyAppend(ReadPatches(rest, source));
    } else {
      var init, last := g[..|g| - 1], g[|g| - 1];
      var from, text := LastSource(init, source), GroupText(last) + rest;
      Regroup(Body(init), Separator(|g| > 1), GroupText(last), rest);
      assert Separator(|g| > 1) + GroupText(last) + rest == Separator(|g| > 1) + text;
      BodyIsRead(init, Separator(|g| > 1) + text, source);
      SeparatorIsPassed(|g| > 1, text, from);
      GroupIsRead(last, rest, from);
      Assoc(AllPatches(init), PatchesOf(last.0, last.1), ReadPatches(rest, last.0));
    }
  }

  // ---- the patches of a section

  predicate PlainSpec(spec: PatchSpec) {
    PlainName(spec.crateName) && '\n' !in spec.source && '\n' !in spec.path
  }

  predicate PlainSpecs(specs: seq<PatchSpec>) {
    forall k :: 0 <= k < |specs| ==> PlainSpec(specs[k])
  }

  lemma {:induction false} PutPlain(crates: Entries<string>, name: string, path: string)
    requires PlainCrates(crates) && PlainName(name) && '\n' !in path
    ensures PlainCrates(Put(crates, name, path))
    decreases |crates|
  {
    if crates != [] && !Less(name, crates[0].0) && crates[0].0 != name {
      PutPlain(crates[1..], name, path);
    }
  }

  lemma {:induction false} PutPlainGroup(g: Groups, source: string, crates: Entries<string>)
    requires PlainGroups(g) && PlainCrates(crates) && '\n' !in source
    ensures PlainGroups(Put(g, source, crates))
    decreases |g|
  {
    if g != [] && !Less(source, g[0].0) && g[0].0 != source {
      PutPlainGroup(g[1..], source, crates);
    }
  }

  lemma {:induction false} CratesPlain(g: Groups, source: string)
    requires PlainGroups(g)
    ensures PlainCrates(CratesOf(g, source))
  {
    if Lookup(g, source).Some? {
      var i := FoundEntry(g, source);
    }
  }

  lemma {:induction false} GroupedPlain(specs: seq<PatchSpec>)
    requires PlainSpecs(specs)
    ensures PlainGroups(Grouped(specs))
  {
    if specs != [] {
      var init, spec := specs[..|specs| - 1], specs[|specs| - 1];
      GroupedPlain(init);
      var g := Grouped(init);
      CratesPlain(g, spec.source);
      PutPlain(CratesOf(g, spec.source), spec.crateName, spec.path);
      PutPlainGroup(g, spec.source, Put(CratesOf(g, spec.source), spec.crateName, spec.path));
    }
  }

  predicate IsComment(l: string) {
    '\n' !in l && l != "" && l[0] == '#'
  }

  lemma {:induction false} MarkersAreComments()
    ensures IsComment(BEGIN) && IsComment(MANAGED) && IsComment(END)
  {
  }

  lemma {:induction false} TwoCommentsPassed(a: string, b: string, rest: string, source: string)
    requires IsComment(a) && IsComment(b)
    ensures ReadPatches(a + "\n" + b + "\n" + rest, source) == ReadPatches(rest, source)
  {
    assert a + "\n" + b + "\n" + rest == a + "\n" + (b + "\n" + rest);
    CommentIsPassed(a, b + "\n" + rest, source);
    CommentIsPassed(b, rest, source);
  }

  lemma {:induction false} LastCommentPassed(a: string, source: string)
    requires IsComment(a)
    ensures ReadPatches("\n" + (a + "\n"), source) == []
  {
    assert "\n" + (a + "\n") == "" + "\n" + (a + "\n");
    CommentIsPassed("", a + "\n", source);
    assert a + "\n" == a + "\n" + "";
    CommentIsPassed(a, "", source);
  }

  lemma {:induction false} CommentedIsRead(a: string, b: string, c: string, g: Groups)
    requires IsComment(a) && IsComment(b) && IsComment(c) && PlainGroups(g)
    ensures ReadPatches(a + "\n" + b + "\n" + Body(g) + "\n" + c + "\n", "") == AllPatches(g)
  {
    var tail := "\n" + (c + "\n");
    FramedText(a + "\n" + b + "\n", Body(g), c);
    TwoCommentsPassed(a, b, Body(g) + tail, "");
    BodyIsRead(g, tail, "");
    LastCommentPassed(c, LastSource(g, ""));
    EmptyAppend(AllPatches(g));
  }

  lemma {:induction false} FramedText(intro: string, body: string, c: string)
    ensures intro + body + "\n" + c + "\n" == intro + (body + ("\n" + (c + "\n")))
  {
  }

  /** A rendered section reads back as its patches, group by group. */
  lemma {:induction false} SectionIsRead(specs: seq<PatchSpec>)
    requires PlainSpecs(specs)
    ensures ReadPatches(Section(specs), "") == AllPatches(Grouped(specs))
  {
    GroupedPlain(specs);
    MarkersAreComments();
    CommentedIsRead(BEGIN, MANAGED, END, Grouped(specs));
  }

  lemma {:induction false} AllPatchesIff(g: Groups, p: Patch)
    ensures p in AllPatches(g) <==>
      exists i, j :: 0 <= i < |g| && g[i].0 == p.source && 0 <= j < |g[i].1| && g[i].1[j] == (p.crateName, p.path)
    decreases |g|
  {
    if g != [] {
      var init, last := g[..|g| - 1], g[|g| - 1];
      AllPatchesIff(init, p);
      var mine := PatchesOf(last.0, last.1);
      if p in mine {
        var j :| 0 <= j < |mine| && mine[j] == p;
        assert g[|g| - 1].1[j] == (p.crateName, p.path);
      }
      if p in AllPatches(init) {
        var i, j :| 0 <= i < |init| && init[i].0 == p.source && 0 <= j < |init[i].1|
          && init[i].1[j] == (p.crateName, p.path);
        assert g[i] == init[i];
      }
      if i, j :| 0 <= i < |g| && g[i].0 == p.source && 0 <= j < |g[i].1| && g[i].1[j] == (p.crateName, p.path) {
        if i < |init| {
          assert init[i] == g[i];
        } else {
          assert mine[j] == p;
        }
      }
    }
  }

  /** A reader finds a path for a crate of a source in the section if and only if it is the last one given for it. */
  lemma {:induction false} ReadIffGiven(specs: seq<PatchSpec>, p: Patch)
    requires PlainSpecs(specs)
    ensures p in ReadPatches(Section(specs), "") <==> PathFor(specs, p.source, p.crateName) == Some(p.path)
  {
    SectionIsRead(specs);
    AllPatchesIff(Grouped(specs), p);
    GroupedExactly(specs, p.source, p.crateName, p.path);
  }

  /** A section is framed by its markers, which are written out here. */
  lemma {:induction false} SectionFrame(specs: seq<PatchSpec>)
    ensures Section(specs) ==
      "# >>> devspace patches >>>" + "\n" + "# Managed by `cargo xtask devspace`" + "\n"
      + Body(Grouped(specs)) + "\n" + "# <<< devspace patches <<<" + "\n"
  {
  }
}
