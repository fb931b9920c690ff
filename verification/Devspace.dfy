/** The section of patches that `cargo xtask devspace` keeps in a configuration file. */
module Devspace {
  import opened Basics

  const BEGIN: string := "# >>> devspace patches >>>"
  const END: string := "# <<< devspace patches <<<"
  const MANAGED: string := "# Managed by `cargo xtask devspace`"

  // ---- searching

  predicate IsAt(s: string, k: nat, pattern: string) {
    k + |pattern| <= |s| && s[k..k + |pattern|] == pattern
  }

  /** The first occurrence at or after `from`. */
  function FindFrom(s: string, pattern: string, from: nat): (r: Option<nat>)
    ensures r.Some? ==> from <= r.value && IsAt(s, r.value, pattern)
    ensures r.Some? ==> forall j: nat :: from <= j < r.value ==> !IsAt(s, j, pattern)
    ensures r.None? ==> forall j: nat :: from <= j ==> !IsAt(s, j, pattern)
    decreases |s| - from
  {
    if from + |pattern| > |s| then None
    else if IsAt(s, from, pattern) then Some(from)
    else FindFrom(s, pattern, from + 1)
  }

  /** `str::find` */
  function Find(s: string, pattern: string): Option<nat> {
    FindFrom(s, pattern, 0)
  }

  ghost predicate IsFirst(s: string, pattern: string, k: nat) {
    IsAt(s, k, pattern) && forall j: nat :: j < k ==> !IsAt(s, j, pattern)
  }

  lemma {:induction false} FindIs(s: string, pattern: string, k: nat)
    requires IsFirst(s, pattern, k)
    ensures Find(s, pattern) == Some(k)
  {
    var r := Find(s, pattern);
    assert r.Some?;
    assert !(r.value < k) && !(k < r.value);
  }

  predicate Has(s: string, pattern: string) {
    Find(s, pattern).Some?
  }

  ghost predicate Absent(s: string, pattern: string) {
    forall j: nat :: !IsAt(s, j, pattern)
  }

  lemma {:induction false} HasIff(s: string, pattern: string)
    ensures Has(s, pattern) <==> !Absent(s, pattern)
    ensures Has(s, pattern) ==> IsFirst(s, pattern, Find(s, pattern).value)
  {
  }

  // ---- stripping

  /** `strip_devspace_section`, as a function of the text. */
  function Strip(contents: string): (string, bool) {
    match Find(contents, BEGIN)
    case None => (contents, false)
    case Some(start) =>
      match Find(contents[start..], END)
      case None => (contents, false)
      case Some(offset) => (Without(contents, start, start + offset + |END|), true)
  }

  /** The text without what stands from `start` to `end`, and without a line end there. */
  function Without(contents: string, start: nat, end: nat): string
    requires start <= end <= |contents|
  {
    var tail := contents[end..];
    var skip := if "\r\n" <= tail then 2 else if "\n" <= tail then 1 else 0;
    contents[..start] + tail[skip..]
  }

  // ---- rendering

  datatype PatchSpec = PatchSpec(source: string, crateName: string, path: string)

  /** An ordered map, as its entries in order of their keys. */
  type Entries<V> = seq<(string, V)>

  /** String order: by the first character that differs, a proper prefix first. */
  predicate Less(a: string, b: string) {
    b != "" && (a == "" || a[0] < b[0] || (a[0] == b[0] && Less(a[1..], b[1..])))
  }

  function Lookup<V>(m: Entries<V>, key: string): Option<V> {
    if m == [] then None else if m[0].0 == key then Some(m[0].1) else Lookup(m[1..], key)
  }

  function Put<V>(m: Entries<V>, key: string, value: V): Entries<V> {
    if m == [] || Less(key, m[0].0) then [(key, value)] + m
    else if m[0].0 == key then [(key, value)] + m[1..]
    else [m[0]] + Put(m[1..], key, value)
  }

  lemma {:induction false} LookupPut<V>(m: Entries<V>, key: string, value: V, k: string)
    ensures Lookup(Put(m, key, value), k) == if k == key then Some(value) else Lookup(m, k)
  {
    var m' := Put(m, key, value);
    if m == [] || Less(key, m[0].0) {
      assert m'[1..] == m;
    } else if m[0].0 == key {
      assert m'[1..] == m[1..];
    } else {
      assert m'[1..] == Put(m[1..], key, value);
      LookupPut(m[1..], key, value, k);
    }
  }

  /** The first difference decides, and a proper prefix comes first. */
  lemma {:induction false} LessIff(a: string, b: string)
    ensures Less(a, b) <==> a < b || exists k :: 0 <= k < |a| && k < |b| && a[..k] == b[..k] && a[k] < b[k]
  {
    if a != "" && b != "" {
      var x, y := a[1..], b[1..];
      if a[0] == b[0] {
        LessIff(x, y);
        assert a < b <==> x < y;
        if k :| 0 <= k < |x| && k < |y| && x[..k] == y[..k] && x[k] < y[k] {
          assert a[..k + 1] == [a[0]] + x[..k] && b[..k + 1] == [b[0]] + y[..k];
          assert a[k + 1] < b[k + 1];
        }
        if k :| 0 <= k < |a| && k < |b| && a[..k] == b[..k] && a[k] < b[k] {
          assert x[..k - 1] == a[..k][1..] && y[..k - 1] == b[..k][1..];
          assert x[k - 1] < y[k - 1];
        }
      } else {
        assert a[..0] == b[..0];
        assert forall k :: 0 < k < |a| && k < |b| ==> a[..k][0] == a[0] != b[0] == b[..k][0];
      }
    }
  }

  // Entries are strictly sorted, so that no key has a second, stale entry.

  lemma {:induction false} LessOrGreater(a: string, b: string)
    requires a != b && !Less(a, b)
    ensures Less(b, a)
  {
    if a != "" && b != "" && a[0] == b[0] {
      assert a == [a[0]] + a[1..] && b == [b[0]] + b[1..];
      LessOrGreater(a[1..], b[1..]);
    }
  }

  lemma {:induction false} LessTransitive(a: string, b: string, c: string)
    requires Less(a, b) && Less(b, c)
    ensures Less(a, c)
  {
    if a != "" && a[0] == b[0] && b[0] == c[0] {
      LessTransitive(a[1..], b[1..], c[1..]);
    }
  }

  lemma {:induction false} NotLessItself(a: string)
    ensures !Less(a, a)
  {
    if a != "" {
      NotLessItself(a[1..]);
    }
  }

  /** Every key is less than the one after it. */
  predicate Sorted<V>(m: Entries<V>) {
    |m| < 2 || (Less(m[0].0, m[1].0) && Sorted(m[1..]))
  }

  lemma {:induction false} PutSorted<V>(m: Entries<V>, key: string, value: V)
    requires Sorted(m)
    ensures Sorted(Put(m, key, value)) && Put(m, key, value) != []
    ensures Put(m, key, value)[0].0 == key || (m != [] && Put(m, key, value)[0].0 == m[0].0)
  {
    var m' := Put(m, key, value);
    if m == [] || Less(key, m[0].0) {
      assert m'[1..] == m;
    } else if m[0].0 == key {
      assert m'[1..] == m[1..];
    } else {
      LessOrGreater(key, m[0].0);
      PutSorted(m[1..], key, value);
      assert m'[1..] == Put(m[1..], key, value);
    }
  }

  lemma {:induction false} FirstIsLeast<V>(m: Entries<V>, i: nat)
    requires Sorted(m) && 0 < i < |m|
    ensures Less(m[0].0, m[i].0)
  {
    if i > 1 {
      FirstIsLeast(m[1..], i - 1);
      LessTransitive(m[0].0, m[1].0, m[i].0);
    }
  }

  /** In sorted entries a key is found exactly where it stands. */
  lemma {:induction false} LookupEntry<V>(m: Entries<V>, i: nat)
    requires Sorted(m) && i < |m|
    ensures Lookup(m, m[i].0) == Some(m[i].1)
  {
    if i > 0 {
      FirstIsLeast(m, i);
      NotLessItself(m[0].0);
      LookupEntry(m[1..], i - 1);
    }
  }

  lemma {:induction false} FoundEntry<V>(m: Entries<V>, key: string) returns (i: nat)
    requires Lookup(m, key).Some?
    ensures i < |m| && m[i] == (key, Lookup(m, key).value)
  {
    if m[0].0 == key {
      i := 0;
    } else {
      var j := FoundEntry(m[1..], key);
      i := j + 1;
    }
  }

  type Groups = Entries<Entries<string>>

  function CratesOf(g: Groups, source: string): Entries<string> {
    match Lookup(g, source)
    case None => []
    case Some(crates) => crates
  }

  function Grouped(specs: seq<PatchSpec>): Groups {
    if specs == [] then []
    else
      var g, spec := Grouped(specs[..|specs| - 1]), specs[|specs| - 1];
      Put(g, spec.source, Put(CratesOf(g, spec.source), spec.crateName, spec.path))
  }

  /** The path a list of patches gives to a crate of a source: the last one named. */
  function PathFor(specs: seq<PatchSpec>, source: string, crateName: string): Option<string> {
    if specs == [] then None
    else
      var spec := specs[|specs| - 1];
      if spec.source == source && spec.crateName == crateName then Some(spec.path)
      else PathFor(specs[..|specs| - 1], source, crateName)
  }

  /** Grouping by source and crate loses no patch and invents none. */
  lemma {:induction false} GroupedIsPathFor(specs: seq<PatchSpec>, source: string, crateName: string)
    ensures Lookup(CratesOf(Grouped(specs), source), crateName) == PathFor(specs, source, crateName)
  {
    if specs != [] {
      var init, spec := specs[..|specs| - 1], specs[|specs| - 1];
      GroupedIsPathFor(init, source, crateName);
      var g := Grouped(init);
      var crates := Put(CratesOf(g, spec.source), spec.crateName, spec.path);
      LookupPut(g, spec.source, crates, source);
      LookupPut(CratesOf(g, spec.source), spec.crateName, spec.path, crateName);
    }
  }

  ghost predicate SortedGroups(g: Groups) {
    Sorted(g) && forall source :: Sorted(CratesOf(g, source))
  }

  lemma {:induction false} GroupedSorted(specs: seq<PatchSpec>)
    ensures SortedGroups(Grouped(specs))
  {
    if specs != [] {
      var init, spec := specs[..|specs| - 1], specs[|specs| - 1];
      GroupedSorted(init);
      var g := Grouped(init);
      var crates := Put(CratesOf(g, spec.source), spec.crateName, spec.path);
      PutSorted(CratesOf(g, spec.source), spec.crateName, spec.path);
      PutSorted(g, spec.source, crates);
      var g' := Put(g, spec.source, crates);
      forall source ensures Sorted(CratesOf(g', source)) {
        LookupPut(g, spec.source, crates, source);
        assert CratesOf(g', source) == if source == spec.source then crates else CratesOf(g, source);
      }
    }
  }

  /** The groups hold, under its source, exactly one entry for each crate patched: the last path given. */
  lemma {:induction false} GroupedExactly(specs: seq<PatchSpec>, source: string, crateName: string, path: string)
    ensures SortedGroups(Grouped(specs))
    ensures (exists i, j :: 0 <= i < |Grouped(specs)| && Grouped(specs)[i].0 == source
                            && 0 <= j < |Grouped(specs)[i].1| && Grouped(specs)[i].1[j] == (crateName, path))
       <==> PathFor(specs, source, crateName) == Some(path)
  {
    var g := Grouped(specs);
    GroupedSorted(specs);
    GroupedIsPathFor(specs, source, crateName);
    if i, j :| 0 <= i < |g| && g[i].0 == source && 0 <= j < |g[i].1| && g[i].1[j] == (crateName, path) {
      LookupEntry(g, i);
      LookupEntry(g[i].1, j);
    }
    if PathFor(specs, source, crateName) == Some(path) {
      var i := FoundEntry(g, source);
      var j := FoundEntry(g[i].1, crateName);
      assert g[i].0 == source && g[i].1[j] == (crateName, path);
    }
  }

  function CrateLine(entry: (string, string)): string {
    entry.0 + " = { path = \"" + entry.1 + "\" }\n"
  }

  function CrateLines(crates: Entries<string>): string {
    if crates == [] then "" else CrateLines(crates[..|crates| - 1]) + CrateLine(crates[|crates| - 1])
  }

  function Header(source: string): string {
    "[patch.\"" + source + "\"]\n"
  }

  /** The groups, with an empty line between them. */
  function Body(g: Groups): string {
    if g == [] then ""
    else Body(g[..|g| - 1]) + Separator(|g| > 1) + GroupText(g[|g| - 1])
  }

  function GroupText(group: (string, Entries<string>)): string {
    Header(group.0) + CrateLines(group.1)
  }

  function Separator(more: bool): string {
    if more then "\n" else ""
  }

  /** The two comment lines that open a section. */
  const INTRO: string := BEGIN + "\n" + MANAGED + "\n"

  function Framed(body: string): string {
    INTRO + body + "\n" + END + "\n"
  }

  function Section(specs: seq<PatchSpec>): string {
    Framed(Body(Grouped(specs)))
  }

  method GroupSpecs(specs: seq<PatchSpec>) returns (g: Groups)
    ensures g == Grouped(specs)
  {
    g := [];
    for i := 0 to |specs|
      invariant g == Grouped(specs[..i])
    {
      assert specs[..i + 1][..i] == specs[..i];
      g := Put(g, specs[i].source, Put(CratesOf(g, specs[i].source), specs[i].crateName, specs[i].path));
    }
    assert specs[..|specs|] == specs;
  }

  method PushCrates(section: string, crates: Entries<string>) returns (section': string)
    ensures section' == section + CrateLines(crates)
  {
    section' := section;
    for j := 0 to |crates|
      invariant section' == section + CrateLines(crates[..j])
    {
      assert crates[..j + 1][..j] == crates[..j];
      section' := section' + CrateLine(crates[j]);
    }
    assert crates[..|crates|] == crates;
  }

  lemma {:induction false} BodySnoc(section: string, g: Groups, i: nat)
    requires i < |g|
    ensures section + Body(g[..i]) + Separator(i > 0) + GroupText(g[i]) == section + Body(g[..i + 1])
  {
    assert g[..i + 1][..i] == g[..i];
    Regroup(section, Body(g[..i]), Separator(i > 0), GroupText(g[i]));
  }

  lemma {:induction false} Regroup(a: string, b: string, c: string, d: string)
    ensures a + b + c + d == a + (b + c + d)
  {
  }

  /** The groups one after another; an empty line follows each one that has a successor. */
  method PushGroups(section: string, g: Groups) returns (section': string)
    ensures section' == section + Body(g)
  {
    section' := section;
    for i := 0 to |g|
      invariant section' == section + Body(g[..i]) + Separator(0 < i < |g|)
    {
      BodySnoc(section, g, i);
      section' := PushGroup(section', g[i]);
      if i + 1 < |g| {
        section' := section' + "\n";
      }
    }
    assert g[..|g|] == g;
  }

  method PushGroup(section: string, group: (string, Entries<string>)) returns (section': string)
    ensures section' == section + GroupText(group)
  {
    section' := section + Header(group.0);
    section' := PushCrates(section', group.1);
  }

  /** `render_devspace_section` */
  method RenderSection(specs: seq<PatchSpec>) returns (section: string)
    ensures section == Section(specs)
  {
    var g := GroupSpecs(specs);
    section := BEGIN + "\n" + MANAGED + "\n";
    section := PushGroups(section, g);
    section := section + "\n" + END + "\n";
  }

  // ---- what the section looks like

  predicate NoHash(s: string) {
    '#' !in s
  }

  predicate NoHashIn(specs: seq<PatchSpec>) {
    forall k :: 0 <= k < |specs| ==>
      NoHash(specs[k].source) && NoHash(specs[k].crateName) && NoHash(specs[k].path)
  }

  lemma {:induction false} PutNoHash(m: Entries<string>, key: string, value: string)
    requires NoHash(key) && NoHash(value)
    requires forall k :: 0 <= k < |m| ==> NoHash(m[k].0) && NoHash(m[k].1)
    ensures forall k :: 0 <= k < |Put(m, key, value)| ==>
      NoHash(Put(m, key, value)[k].0) && NoHash(Put(m, key, value)[k].1)
  {
    if m != [] && !Less(key, m[0].0) && m[0].0 != key {
      PutNoHash(m[1..], key, value);
    }
  }

  predicate CleanCrates(m: Entries<string>) {
    forall k :: 0 <= k < |m| ==> NoHash(m[k].0) && NoHash(m[k].1)
  }

  predicate CleanGroups(g: Groups) {
    forall k :: 0 <= k < |g| ==> NoHash(g[k].0) && CleanCrates(g[k].1)
  }

  lemma {:induction false} PutClean(g: Groups, source: string, crates: Entries<string>)
    requires CleanGroups(g) && NoHash(source) && CleanCrates(crates)
    ensures CleanGroups(Put(g, source, crates))
  {
    if g != [] && !Less(source, g[0].0) && g[0].0 != source {
      PutClean(g[1..], source, crates);
    }
  }

  lemma {:induction false} LookupClean(g: Groups, source: string)
    requires CleanGroups(g)
    ensures CleanCrates(CratesOf(g, source))
  {
    if g != [] && g[0].0 != source {
      LookupClean(g[1..], source);
    }
  }

  lemma {:induction false} GroupedClean(specs: seq<PatchSpec>)
    requires NoHashIn(specs)
    ensures CleanGroups(Grouped(specs))
  {
    if specs != [] {
      var init, spec := specs[..|specs| - 1], specs[|specs| - 1];
      GroupedClean(init);
      LookupClean(Grouped(init), spec.source);
      PutNoHash(CratesOf(Grouped(init), spec.source), spec.crateName, spec.path);
      PutClean(Grouped(init), spec.source, Put(CratesOf(Grouped(init), spec.source), spec.crateName, spec.path));
    }
  }

  lemma {:induction false} CrateLinesClean(crates: Entries<string>)
    requires CleanCrates(crates)
    ensures NoHash(CrateLines(crates))
  {
    if crates != [] {
      CrateLinesClean(crates[..|crates| - 1]);
    }
  }

  lemma {:induction false} BodyClean(g: Groups)
    requires CleanGroups(g)
    ensures NoHash(Body(g))
  {
    if g != [] {
      BodyClean(g[..|g| - 1]);
      CrateLinesClean(g[|g| - 1].1);
    }
  }

  /** Where the end marker stands in a section around `body`. */
  function EndAt(body: string): nat {
    |INTRO| + |body| + 1
  }

  lemma {:induction false} BeginHashes(i: nat)
    requires 0 < i < |BEGIN|
    ensures BEGIN[i] != '#'
  {
  }

  lemma {:induction false} ManagedHashes(i: nat)
    requires 0 < i < |MANAGED|
    ensures MANAGED[i] != '#'
  {
  }

  lemma {:induction false} IntroAt(i: nat)
    requires i < |INTRO|
    ensures |INTRO| == |BEGIN| + |MANAGED| + 2
    ensures i < |BEGIN| ==> INTRO[i] == BEGIN[i]
    ensures i == |BEGIN| || i == |INTRO| - 1 ==> INTRO[i] == '\n'
    ensures |BEGIN| < i < |INTRO| - 1 ==> INTRO[i] == MANAGED[i - |BEGIN| - 1]
  {
    var a, b := BEGIN + "\n", MANAGED + "\n";
    Assoc(BEGIN + "\n", MANAGED, "\n");
    assert INTRO == a + b;
  }

  /** The opening lines hold two hash signs, neither of which starts an end marker. */
  lemma {:induction false} NoEndInIntro(k: nat)
    requires k < |INTRO| && INTRO[k] == '#'
    ensures k + 2 < |INTRO| && INTRO[k + 2] != END[2]
  {
    IntroAt(k);
    if 0 < k < |BEGIN| { BeginHashes(k); }
    if |BEGIN| + 1 < k < |INTRO| - 1 { ManagedHashes(k - |BEGIN| - 1); }
    assert k == 0 || k == |BEGIN| + 1;
    IntroAt(k + 2);
    assert BEGIN[2] == '>' && MANAGED[2] == 'M' && END[2] == '<';
  }

  predicate OneLine(pattern: string) {
    pattern != "" && '\n' !in pattern
  }

  lemma {:induction false} MarkersAreLines()
    ensures OneLine(BEGIN) && OneLine(END)
  {
    assert forall j :: 0 <= j < |BEGIN| ==> BEGIN[j] != '\n';
    assert forall j :: 0 <= j < |END| ==> END[j] != '\n';
  }

  lemma {:induction false} SpansNoNewline(s: string, k: nat, pattern: string, i: nat)
    requires OneLine(pattern) && IsAt(s, k, pattern) && k <= i < k + |pattern|
    ensures s[i] != '\n'
  {
    assert s[k..k + |pattern|][i - k] == s[i];
    assert pattern[i - k] in pattern;
  }

  /** No end marker starts in the opening lines. */
  lemma {:induction false} NoEndAtIntro(body: string, k: nat)
    requires k < |INTRO|
    ensures !IsAt(Framed(body), k, END)
  {
    var s := Framed(body);
    assert s[k] == INTRO[k] && END[0] == '#';
    AtEnd(s, k);
    if INTRO[k] == '#' {
      NoEndInIntro(k);
      assert s[k + 2] == INTRO[k + 2];
    }
  }

  lemma {:induction false} BodySlice(body: string)
    ensures var s, n := Framed(body), |INTRO| + |body|;
      n < |s| && s[|INTRO|..n] == body && s[n] == '\n'
  {
    var s, front := Framed(body), INTRO + body;
    Assoc(front, "\n", END);
    Assoc(front, "\n" + END, "\n");
    assert s == front + ("\n" + END + "\n");
    assert s[..|front|] == front;
    assert s[|INTRO|..|front|] == front[|INTRO|..];
  }

  lemma {:induction false} AtSlice(s: string, from: nat, to: nat, j: nat, pattern: string)
    requires from <= to <= |s| && from + j + |pattern| <= to
    ensures IsAt(s, from + j, pattern) <==> IsAt(s[from..to], j, pattern)
  {
    var x, y := s[from..to][j..j + |pattern|], s[from + j..from + j + |pattern|];
    assert |x| == |y| && forall i :: 0 <= i < |x| ==> x[i] == y[i];
  }

  /** An end marker that starts in a stretch of text before a line end lies in that stretch. */
  lemma {:induction false} EndInStretch(s: string, from: nat, to: nat, j: nat)
    requires from <= to < |s| && s[to] == '\n' && from + j <= to
    ensures IsAt(s, from + j, END) <==> IsAt(s[from..to], j, END)
  {
    if from + j + |END| <= to {
      AtSlice(s, from, to, j, END);
    } else if IsAt(s, from + j, END) {
      MarkersAreLines();
      SpansNoNewline(s, from + j, END, to);
    }
  }

  lemma {:induction false} EndBefore(body: string, k: nat)
    requires k < EndAt(body)
    ensures IsAt(Framed(body), k, END) <==> k >= |INTRO| && IsAt(body, k - |INTRO|, END)
  {
    if k < |INTRO| {
      NoEndAtIntro(body, k);
    } else {
      BodySlice(body);
      EndInStretch(Framed(body), |INTRO|, |INTRO| + |body|, k - |INTRO|);
    }
  }

  /** The first end marker of a section is the one that closes it, if and only if its body has none. */
  lemma {:induction false} FirstEnd(body: string)
    ensures IsFirst(Framed(body), END, EndAt(body)) <==> !Has(body, END)
    ensures EndAt(body) + |END| + 1 == |Framed(body)|
  {
    var s := Framed(body);
    EndIsThere(body);
    HasIff(body, END);
    forall k: nat | k < EndAt(body) ensures IsAt(s, k, END) <==> k >= |INTRO| && IsAt(body, k - |INTRO|, END) {
      EndBefore(body, k);
    }
    if j: nat :| IsAt(body, j, END) {
      assert IsAt(s, |INTRO| + j, END);
    }
  }

  lemma {:induction false} EndIsThere(body: string)
    ensures IsAt(Framed(body), EndAt(body), END) && EndAt(body) + |END| + 1 == |Framed(body)|
  {
    var a, s := INTRO + body + "\n", Framed(body);
    assert s == a + (END + "\n");
    assert s[|a|..|a| + |END|] == END;
  }

  lemma {:induction false} AtEnd(s: string, k: nat)
    ensures IsAt(s, k, END) ==> s[k] == END[0] && s[k + 2] == END[2]
  {
    if IsAt(s, k, END) {
      assert s[k..k + |END|][0] == s[k] && s[k..k + |END|][2] == s[k + 2];
    }
  }
}
