/** The rewriting of a guest's boot arguments. */
module BootArgs {
  import opened Basics

  /** " ro " stands at position `k`. */
  predicate ReadOnlyAt(s: seq<Byte>, k: nat) {
    k + 4 <= |s| && s[k] == 0x20 && s[k + 1] == 0x72 && s[k + 2] == 0x6f && s[k + 3] == 0x20
  }

  const RW: seq<Byte> := [0x20, 0x72, 0x77, 0x20]

  /** `str::replace(" ro ", " rw ")`: matches are taken from the left and do not overlap. */
  function ReplaceRo(s: seq<Byte>): (r: seq<Byte>)
    ensures |r| == |s|
  {
    if |s| < 4 then s
    else if ReadOnlyAt(s, 0) then RW + ReplaceRo(s[4..])
    else [s[0]] + ReplaceRo(s[1..])
  }

  /** Replacing changes the "o" of a " ro " into a "w" and nothing else. */
  lemma {:induction false} ReplaceRoAt(s: seq<Byte>, k: nat)
    requires k < |s|
    ensures var r := ReplaceRo(s); r[k] == s[k] || (k >= 2 && ReadOnlyAt(s, k - 2) && r[k] == 0x77)
    ensures ReplaceRo(s)[0] == s[0]
  {
    if |s| >= 4 && ReadOnlyAt(s, 0) {
      if k >= 4 {
        ReplaceRoAt(s[4..], k - 4);
      }
    } else if |s| >= 4 && k >= 1 {
      ReplaceRoAt(s[1..], k - 1);
    }
  }

  /** A " ro " that survives shared its first blank with another one. */
  lemma {:induction false} SurvivorShares(s: seq<Byte>, k: nat)
    requires ReadOnlyAt(ReplaceRo(s), k)
    ensures k >= 3 && ReadOnlyAt(s, k) && ReadOnlyAt(s, k - 3)
    decreases |s|
  {
    ReplaceRoAt(s, k);
    ReplaceRoAt(s, k + 1);
    ReplaceRoAt(s, k + 2);
    ReplaceRoAt(s, k + 3);
    if ReadOnlyAt(s, 0) {
      if k >= 4 {
        assert ReadOnlyAt(ReplaceRo(s[4..]), k - 4);
        SurvivorShares(s[4..], k - 4);
      }
    } else {
      assert ReadOnlyAt(ReplaceRo(s[1..]), k - 1);
      SurvivorShares(s[1..], k - 1);
    }
  }

  lemma {:induction false} SharedBlankMisses(s: seq<Byte>, k: nat)
    requires ReadOnlyAt(s, k) && ReadOnlyAt(s, k + 3)
    ensures exists i: nat :: ReadOnlyAt(ReplaceRo(s), i)
    decreases |s|
  {
    var r := ReplaceRo(s);
    if ReadOnlyAt(s, 0) {
      var t := s[4..];
      if k >= 4 {
        assert ReadOnlyAt(t, k - 4) && ReadOnlyAt(t, k - 1);
        SharedBlankMisses(t, k - 4);
        var i: nat :| ReadOnlyAt(ReplaceRo(t), i);
        assert ReadOnlyAt(r, i + 4);
      } else {
        assert t[0] == 0x72 && t[1] == 0x6f && t[2] == 0x20;
        UnmatchedStart(t);
        assert ReadOnlyAt(r, 3);
      }
    } else {
      var t := s[1..];
      assert ReadOnlyAt(t, k - 1) && ReadOnlyAt(t, k + 2);
      SharedBlankMisses(t, k - 1);
      var i: nat :| ReadOnlyAt(ReplaceRo(t), i);
      assert ReadOnlyAt(r, i + 1);
    }
  }

  lemma {:induction false} UnmatchedStart(t: seq<Byte>)
    requires |t| >= 3 && t[0] == 0x72 && t[1] == 0x6f && t[2] == 0x20
    ensures var r := ReplaceRo(t); r[0] == t[0] && r[1] == t[1] && r[2] == t[2]
  {
    if |t| >= 4 {
      var u := t[1..];
      assert ReplaceRo(t) == [t[0]] + ReplaceRo(u);
      if |u| >= 4 {
        assert ReplaceRo(u) == [u[0]] + ReplaceRo(u[1..]);
        ReplaceRoAt(u[1..], 0);
      }
    }
  }

  /** The rewritten arguments are free of " ro " iff no two occurrences shared a blank. */
  lemma {:induction false} ReadOnlyGoneIff(s: seq<Byte>)
    ensures (exists i: nat :: ReadOnlyAt(ReplaceRo(s), i))
       <==> (exists i: nat :: ReadOnlyAt(s, i) && ReadOnlyAt(s, i + 3))
  {
    if i: nat :| ReadOnlyAt(ReplaceRo(s), i) {
      SurvivorShares(s, i);
      assert ReadOnlyAt(s, i - 3) && ReadOnlyAt(s, i - 3 + 3);
    }
    if i: nat :| ReadOnlyAt(s, i) && ReadOnlyAt(s, i + 3) {
      SharedBlankMisses(s, i);
    }
  }
}
