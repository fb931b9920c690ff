/** The sources that patches are grouped by. */
module DevspaceSources {
  import opened Basics
  import opened Devspace

  const CRATES_IO: string := "crates-io"
  const CRATES_IO_INDEX: string := "registry+https://github.com/rust-lang/crates.io-index"

  /** The part before the first `c`. */
  function Before(s: string, c: char): (r: string)
    ensures r <= s && c !in r && forall d :: d !in s ==> d !in r
  {
    if s == "" || s[0] == c then "" else [s[0]] + Before(s[1..], c)
  }

  /** `trim_end_matches`: the suffix is taken off as often as it is there. */
  function TrimEnd(s: string, suffix: string): (r: string)
    requires suffix != ""
    ensures r <= s && !EndsWith(r, suffix) && forall d :: d !in s ==> d !in r
  {
    if EndsWith(s, suffix) then TrimEnd(s[..|s| - |suffix|], suffix) else s
  }

  function NormalizeSource(raw: string): Option<string> {
    if "git+" <= raw then Some(TrimEnd(TrimEnd(Before(Before(raw[4..], '#'), '?'), ".git"), "/"))
    else if raw == CRATES_IO_INDEX then Some(CRATES_IO)
    else None
  }

  /** A normalized source has no hash sign, so it cannot break a section, and does not end in a slash. */
  lemma {:induction false} NormalizedIsSafe(raw: string)
    requires NormalizeSource(raw).Some?
    ensures var r := NormalizeSource(raw).value;
      NoHash(r) && '?' !in r && !EndsWith(r, "/")
  {
    if "git+" <= raw {
      var b := Before(Before(raw[4..], '#'), '?');
      assert '#' !in b && '?' !in b;
      assert '#' !in TrimEnd(b, ".git") && '?' !in TrimEnd(b, ".git");
    }
  }

  lemma {:induction false} BeforeNone(s: string, c: char)
    requires c !in s
    ensures Before(s, c) == s
  {
    if s != "" {
      BeforeNone(s[1..], c);
    }
  }

  function Slashes(n: nat): (r: string)
    ensures |r| == n && forall i :: 0 <= i < n ==> r[i] == '/'
  {
    seq(n, _ => '/')
  }

  predicate GitAndSlashes(t: string, n: nat) {
    EndsWith(t, ".git" + Slashes(n))
  }

  ghost predicate EndsInGitSlashes(t: string) {
    exists n: nat :: GitAndSlashes(t, n)
  }

  /** A git source whose part before '#' and '?', once ".git" is taken off its end, ends in ".git" and slashes. */
  ghost predicate GitBeforeSlashes(raw: string)
    requires "git+" <= raw
  {
    EndsInGitSlashes(TrimEnd(Before(Before(raw[4..], '#'), '?'), ".git"))
  }

  lemma {:induction false} OneSlashMore(t: string, n: nat)
    requires EndsWith(t, "/")
    ensures GitAndSlashes(t[..|t| - 1], n) <==> GitAndSlashes(t, n + 1)
  {
    var g := ".git" + Slashes(n);
    assert t == t[..|t| - 1] + "/" by { assert t[|t| - 1..] == "/"; }
    assert ".git" + Slashes(n + 1) == g + "/" by { assert Slashes(n + 1) == Slashes(n) + "/"; }
    if EndsWith(t[..|t| - 1], g) {
      assert t[|t| - |g| - 1..] == t[..|t| - 1][|t| - 1 - |g|..] + "/";
    }
    if EndsWith(t, g + "/") {
      assert t[..|t| - 1][|t| - 1 - |g|..] == t[|t| - |g| - 1..][..|g|];
      assert (g + "/")[..|g|] == g;
    }
  }

  lemma {:induction false} LastChar(t: string, suffix: string)
    requires suffix != "" && EndsWith(t, suffix)
    ensures t != "" && t[|t| - 1] == suffix[|suffix| - 1]
  {
    assert t[|t| - |suffix|..][|suffix| - 1] == t[|t| - 1];
  }

  lemma {:induction false} SlashEnds(t: string)
    ensures EndsWith(t, "/") <==> t != "" && t[|t| - 1] == '/'
  {
    if t != "" {
      assert t[|t| - 1..] == [t[|t| - 1]];
    }
  }

  /** ".git" and slashes end in a slash iff there is one. */
  lemma {:induction false} GitSlashesEnd(t: string, n: nat)
    requires GitAndSlashes(t, n)
    ensures EndsWith(t, "/") <==> n > 0
    ensures n == 0 ==> EndsWith(t, ".git")
  {
    var g := ".git" + Slashes(n);
    LastChar(t, g);
    SlashEnds(t);
    if n == 0 {
      assert g == ".git";
    } else {
      assert g[|g| - 1] == Slashes(n)[n - 1];
    }
  }

  /** Taking slashes off the end uncovers a ".git" iff the text ends in ".git" and slashes. */
  lemma {:induction false} UncoversGit(t: string)
    ensures EndsWith(TrimEnd(t, "/"), ".git") <==> EndsInGitSlashes(t)
    decreases |t|
  {
    if EndsWith(t, "/") {
      SlashLess(t);
      UncoversGit(t[..|t| - 1]);
    } else {
      NoSlash(t);
    }
  }

  lemma {:induction false} SlashLess(t: string)
    requires EndsWith(t, "/")
    ensures EndsInGitSlashes(t[..|t| - 1]) <==> EndsInGitSlashes(t)
  {
    var u := t[..|t| - 1];
    if n: nat :| GitAndSlashes(u, n) {
      OneSlashMore(t, n);
    }
    if n: nat :| GitAndSlashes(t, n) {
      GitSlashesEnd(t, n);
      OneSlashMore(t, n - 1);
    }
  }

  lemma {:induction false} NoSlash(t: string)
    requires !EndsWith(t, "/")
    ensures EndsWith(t, ".git") <==> EndsInGitSlashes(t)
  {
    if n: nat :| GitAndSlashes(t, n) {
      GitSlashesEnd(t, n);
    }
    assert ".git" + Slashes(0) == ".git";
    assert GitAndSlashes(t, 0) <==> EndsWith(t, ".git");
  }

  lemma {:induction false} NormalizedAgain(raw: string)
    requires NormalizeSource(raw).Some? && "git+" <= raw
    ensures var r := NormalizeSource(raw).value;
      NormalizeSource("git+" + r) == Some(r) <==> !EndsWith(r, ".git")
  {
    var r := NormalizeSource(raw).value;
    NormalizedIsSafe(raw);
    assert ("git+" + r)[..4] == "git+" && ("git+" + r)[4..] == r;
    BeforeNone(r, '#');
    BeforeNone(r, '?');
    if EndsWith(r, ".git") {
      assert |TrimEnd(r, ".git")| < |r|;
    }
  }

  /** Normalizing again changes nothing, unless slashes after a ".git" kept that suffix from being taken off. */
  lemma {:induction false} NormalizedIsStableIff(raw: string)
    requires NormalizeSource(raw).Some? && "git+" <= raw
    ensures NormalizeSource("git+" + NormalizeSource(raw).value) == NormalizeSource(raw) <==> !GitBeforeSlashes(raw)
  {
    NormalizedAgain(raw);
    UncoversGit(TrimEnd(Before(Before(raw[4..], '#'), '?'), ".git"));
  }

  lemma {:induction false} BeforeAll(s: string, c: char, tail: string)
    requires c !in s && (tail == "" || tail[0] == c)
    ensures Before(s + tail, c) == s
    decreases |s|
  {
    if s == "" {
      EmptyAppend(tail);
    } else {
      ConsTail(s, tail);
      BeforeAll(s[1..], c, tail);
    }
  }

  function Repeated(part: string, n: nat): string {
    if n == 0 then "" else Repeated(part, n - 1) + part
  }

  lemma {:induction false} TrimsAll(s: string, suffix: string, n: nat)
    requires suffix != "" && !EndsWith(s, suffix)
    ensures TrimEnd(s + Repeated(suffix, n), suffix) == s
  {
    var t := s + Repeated(suffix, n);
    if n == 0 {
      EmptyAppend(s);
    } else {
      Assoc(s, Repeated(suffix, n - 1), suffix);
      assert t[|t| - |suffix|..] == suffix && t[..|t| - |suffix|] == s + Repeated(suffix, n - 1);
      TrimsAll(s, suffix, n - 1);
    }
  }

  lemma {:induction false} RepeatedHas(part: string, n: nat, c: char)
    requires c !in part
    ensures c !in Repeated(part, n)
  {
    if n > 0 {
      RepeatedHas(part, n - 1, c);
    }
  }

  /** What follows an address: nothing, or a query, or a fragment. */
  predicate IsTail(tail: string) {
    tail == "" || tail[0] == '?' || tail[0] == '#'
  }

  lemma {:induction false} TailIsCut(s: string, tail: string)
    requires '#' !in s && '?' !in s && IsTail(tail)
    ensures Before(Before(s + tail, '#'), '?') == s
  {
    if tail != "" && tail[0] == '?' {
      var q := Before(tail, '#');
      CutLater(s, tail);
      assert q != "" && q[0] == '?';
      BeforeAll(s, '?', q);
    } else {
      BeforeAll(s, '#', tail);
      BeforeNone(s, '?');
    }
  }

  lemma {:induction false} CutLater(s: string, tail: string)
    requires '#' !in s
    ensures Before(s + tail, '#') == s + Before(tail, '#')
    decreases |s|
  {
    if s == "" {
      EmptyAppend(tail);
      EmptyAppend(Before(tail, '#'));
    } else {
      ConsTail(s, tail);
      CutLater(s[1..], tail);
    }
  }

  /** A git address is found again under slashes, any number of ".git", a query and a fragment. */
  lemma {:induction false} NormalizesTo(base: string, slashes: nat, gits: nat, tail: string)
    requires '#' !in base && '?' !in base && !EndsWith(base, "/") && IsTail(tail)
    requires slashes > 0 || !EndsWith(base, ".git")
    ensures NormalizeSource("git+" + (base + Repeated("/", slashes) + Repeated(".git", gits) + tail)) == Some(base)
  {
    var s := base + Repeated("/", slashes);
    var t := s + Repeated(".git", gits);
    RepeatedHas("/", slashes, '#');
    RepeatedHas("/", slashes, '?');
    RepeatedHas(".git", gits, '#');
    RepeatedHas(".git", gits, '?');
    TailIsCut(t, tail);
    NoGitAtEnd(base, slashes);
    TrimsAll(s, ".git", gits);
    TrimsAll(base, "/", slashes);
    assert ("git+" + (t + tail))[4..] == t + tail;
  }

  lemma {:induction false} NoGitAtEnd(base: string, slashes: nat)
    requires slashes > 0 || !EndsWith(base, ".git")
    ensures !EndsWith(base + Repeated("/", slashes), ".git")
  {
    var s := base + Repeated("/", slashes);
    if slashes == 0 {
      EmptyAppend(base);
    } else {
      Assoc(base, Repeated("/", slashes - 1), "/");
      assert s[|s| - 1] == '/';
      if EndsWith(s, ".git") { LastChar(s, ".git"); }
    }
  }

  /** The index of crates.io has its own name; other sources that are not git's have none. */
  lemma {:induction false} RegistryIs(raw: string)
    requires !("git+" <= raw)
    ensures NormalizeSource(raw) ==
      if raw == "registry+https://github.com/rust-lang/crates.io-index" then Some("crates-io") else None
  {
  }
}
