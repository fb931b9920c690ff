/** Which count of its target a reference goes by. */
module CellCounts {
  import opened Basics
  import opened Cells
  import opened DeviceTree
  import opened PhandleTable
  import opened Phandles

  /** The kinds of targets whose specifiers a referring property counts. */
  predicate IsCounted(kind: string) {
    kind in {"clock", "reset", "power-domain", "phy", "interrupt", "gpio", "dma", "thermal-sensor", "sound-dai",
             "mbox", "pwm"}
  }

  function CountName(kind: string): string {
    "#" + kind + "-cells"
  }

  function Plural(kind: string): string {
    if kind == "sound-dai" then kind else if kind == "mbox" then kind + "es" else kind + "s"
  }

  /** A property named so refers to targets of this kind. */
  predicate RefersToKind(name: string, kind: string) {
    || name == Plural(kind)
    || (kind == "clock" && name == "assigned-clocks")
    || (kind == "interrupt" && name == "interrupts-extended")
    || (kind == "gpio" && (EndsWith(name, "-gpios") || EndsWith(name, "-gpio")))
  }

  /** The count a target of a kind asks for; none is none. */
  function OwnCount(kind: string, t: Target): nat {
    if CountName(kind) in t.cells then t.cells[CountName(kind)] else 0
  }

  lemma {:induction false} ShortNames()
    ensures CountName("clock") == "#clock-cells" && CountName("reset") == "#reset-cells"
    ensures CountName("phy") == "#phy-cells" && CountName("gpio") == "#gpio-cells"
  {
  }

  lemma {:induction false} ShorterNames()
    ensures CountName("dma") == "#dma-cells" && CountName("mbox") == "#mbox-cells"
    ensures CountName("pwm") == "#pwm-cells" && CountName("size") == "#size-cells"
  {
  }

  lemma {:induction false} LongNames()
    ensures CountName("power-domain") == "#power-domain-cells" && CountName("interrupt") == "#interrupt-cells"
  {
  }

  lemma {:induction false} LongerNames()
    ensures CountName("thermal-sensor") == "#thermal-sensor-cells" && CountName("sound-dai") == "#sound-dai-cells"
  {
  }

  lemma {:induction false} UnusedNames()
    ensures CountName("address") == "#address-cells" && CountName("iommu") == "#iommu-cells"
  {
  }

  lemma {:induction false} CountNames()
    ensures CountName("clock") == "#clock-cells" && CountName("reset") == "#reset-cells"
    ensures CountName("power-domain") == "#power-domain-cells" && CountName("phy") == "#phy-cells"
    ensures CountName("interrupt") == "#interrupt-cells" && CountName("gpio") == "#gpio-cells"
    ensures CountName("dma") == "#dma-cells" && CountName("thermal-sensor") == "#thermal-sensor-cells"
    ensures CountName("sound-dai") == "#sound-dai-cells" && CountName("mbox") == "#mbox-cells"
    ensures CountName("pwm") == "#pwm-cells" && CountName("address") == "#address-cells"
    ensures CountName("size") == "#size-cells" && CountName("iommu") == "#iommu-cells"
  {
    ShortNames();
    ShorterNames();
    LongNames();
    LongerNames();
    UnusedNames();
  }

  lemma {:induction false} Plurals()
    ensures Plural("clock") == "clocks" && Plural("reset") == "resets" && Plural("power-domain") == "power-domains"
    ensures Plural("phy") == "phys" && Plural("interrupt") == "interrupts" && Plural("gpio") == "gpios"
    ensures Plural("dma") == "dmas" && Plural("thermal-sensor") == "thermal-sensors"
    ensures Plural("sound-dai") == "sound-dai" && Plural("mbox") == "mboxes" && Plural("pwm") == "pwms"
  {
  }

  /** A property that refers to a kind goes by the count of that kind. */
  lemma {:induction false} CountOfKind(name: string, kind: string)
    requires IsCounted(kind) && RefersToKind(name, kind)
    ensures CellsProperty(name) == Some(CountName(kind))
  {
    CountNames();
    Plurals();
  }

  /** And a property that goes by a count refers to its kind. */
  lemma {:induction false} KindOf(name: string) returns (kind: string)
    requires CellsProperty(name).Some?
    ensures IsCounted(kind) && RefersToKind(name, kind) && CellsProperty(name) == Some(CountName(kind))
  {
    CountNames();
    Plurals();
    if name == "clocks" || name == "assigned-clocks" { kind := "clock"; }
    else if name == "resets" { kind := "reset"; }
    else if name == "power-domains" { kind := "power-domain"; }
    else if name == "phys" { kind := "phy"; }
    else if name == "interrupts" || name == "interrupts-extended" { kind := "interrupt"; }
    else if name == "dmas" { kind := "dma"; }
    else if name == "thermal-sensors" { kind := "thermal-sensor"; }
    else if name == "sound-dai" { kind := "sound-dai"; }
    else if name == "mboxes" { kind := "mbox"; }
    else if name == "pwms" { kind := "pwm"; }
    else { kind := "gpio"; }
  }

  /** Every count that is collected is that of a counted kind, or one of three that nothing goes by. */
  lemma {:induction false} CollectedIff(key: string)
    ensures IsCellCount(key) <==>
      exists kind :: key == CountName(kind) && (IsCounted(kind) || kind in {"address", "size", "iommu"})
  {
    CountNames();
    if IsCellCount(key) {
      var kind := CollectedKind(key);
      assert key == CountName(kind);
    }
  }

  lemma {:induction false} CollectedKind(key: string) returns (kind: string)
    requires IsCellCount(key)
    ensures key == CountName(kind) && (IsCounted(kind) || kind in {"address", "size", "iommu"})
  {
    CountNames();
    if key == "#clock-cells" { kind := "clock"; }
    else if key == "#reset-cells" { kind := "reset"; }
    else if key == "#power-domain-cells" { kind := "power-domain"; }
    else if key == "#phy-cells" { kind := "phy"; }
    else if key == "#interrupt-cells" { kind := "interrupt"; }
    else if key == "#gpio-cells" { kind := "gpio"; }
    else if key == "#dma-cells" { kind := "dma"; }
    else if key == "#thermal-sensor-cells" { kind := "thermal-sensor"; }
    else if key == "#sound-dai-cells" { kind := "sound-dai"; }
    else if key == "#mbox-cells" { kind := "mbox"; }
    else if key == "#pwm-cells" { kind := "pwm"; }
    else if key == "#address-cells" { kind := "address"; }
    else if key == "#size-cells" { kind := "size"; }
    else { kind := "iommu"; }
  }

  // ---- what that means for references

  /** A reference takes as many specifiers as its target asks for under the kind the property refers to. */
  ghost predicate TakesOwn(r: Ref, name: string, pm: PhandleMap) {
    r.phandle in pm &&
    if exists kind :: IsCounted(kind) && RefersToKind(name, kind)
    then exists kind :: IsCounted(kind) && RefersToKind(name, kind) && |r.specifiers| == OwnCount(kind, pm[r.phandle])
    else r.specifiers == []
  }

  lemma {:induction false} ProperTakesOwn(r: Ref, name: string, pm: PhandleMap)
    ensures Proper(Whole(r), name, pm) <==> TakesOwn(r, name, pm)
  {
    forall kind | IsCounted(kind) && RefersToKind(name, kind) ensures CellsProperty(name) == Some(CountName(kind)) {
      CountOfKind(name, kind);
    }
    if CellsProperty(name).Some? {
      var kind := KindOf(name);
      assert IsCounted(kind) && RefersToKind(name, kind);
    }
  }

  /** Every reference found takes what its target asks for, on whatever data. */
  lemma {:induction false} FoundTakesOwn(cells: seq<U32>, name: string, pm: PhandleMap)
    ensures forall r :: r in ParseCells(cells, name, pm) ==> TakesOwn(r, name, pm)
  {
    if cells == [] {
    } else if cells[0] !in pm {
      FoundTakesOwn(cells[1..], name, pm);
    } else {
      var n := CellsCount(name, pm[cells[0]].cells);
      if n < |cells| {
        ProperTakesOwn(Ref(cells[0], cells[1..n + 1]), name, pm);
        FoundTakesOwn(cells[n + 1..], name, pm);
      }
    }
  }

  /** A list of references encoded with its targets' own counts is what parsing gives back. */
  lemma {:induction false} OwnCountsRoundTrip(refs: seq<Ref>, name: string, kind: string, pm: PhandleMap)
    requires IsCounted(kind) && RefersToKind(name, kind)
    requires forall k :: 0 <= k < |refs| ==>
      refs[k].phandle in pm && |refs[k].specifiers| == OwnCount(kind, pm[refs[k].phandle])
    ensures ParseProperty(EncodeCells(EncodeRefs(refs)), name, pm) == refs
  {
    CountOfKind(name, kind);
    RefsRoundTrip(refs, name, pm);
  }

  /** The cells that are handles, each a reference of its own. */
  function Handles(cells: seq<U32>, pm: PhandleMap): seq<Ref> {
    if cells == [] then []
    else (if cells[0] in pm then [Ref(cells[0], [])] else []) + Handles(cells[1..], pm)
  }

  lemma {:induction false} UncountedName(name: string)
    ensures CellsProperty(name).None? <==> !exists kind :: IsCounted(kind) && RefersToKind(name, kind)
  {
    if CellsProperty(name).Some? {
      var kind := KindOf(name);
    }
    if kind :| IsCounted(kind) && RefersToKind(name, kind) {
      CountOfKind(name, kind);
    }
  }

  /** In a property that refers to no counted kind, every cell that is a handle is a reference. */
  lemma {:induction false} UncountedHandles(cells: seq<U32>, name: string, pm: PhandleMap)
    requires !exists kind :: IsCounted(kind) && RefersToKind(name, kind)
    ensures ParseCells(cells, name, pm) == Handles(cells, pm)
  {
    UncountedName(name);
    if cells != [] {
      UncountedHandles(cells[1..], name, pm);
      assert cells[1..0 + 1] == [];
    }
  }

  lemma {:induction false} ContainsFirst(s: string, part: string)
    requires Contains(s, part) && part != ""
    ensures part[0] in s
  {
    var k :| 0 <= k <= |s| && part <= s[k..];
    assert s[k..][0] == s[k] == part[0];
  }

  lemma {:induction false} SuffixIn(s: string, suffix: string)
    requires EndsWith(s, suffix) && suffix != ""
    ensures suffix[0] in s && s != "" && s[|s| - 1] == suffix[|suffix| - 1]
  {
    var k := |s| - |suffix|;
    assert s[k] == s[k..][0] == suffix[0];
    assert s[|s| - 1] == s[k..][|suffix| - 1];
  }

  /** A name is not followed that is not listed, has no 'c', and no dash or another end than the suffixes. */
  lemma {:induction false} NotFollowed(name: string)
    requires name !in PHANDLE_PROPERTIES && 'c' !in name && name != "gpios" && name != ""
    requires '-' !in name || name[|name| - 1] !in {'y', 's', 'o'}
    ensures !IsPhandleProperty(name)
  {
    if Contains(name, "cells") { ContainsFirst(name, "cells"); }
    if EndsWith(name, "-supply") { SuffixIn(name, "-supply"); }
    if EndsWith(name, "-gpios") { SuffixIn(name, "-gpios"); }
    if EndsWith(name, "-gpio") { SuffixIn(name, "-gpio"); }
  }

  lemma {:induction false} InterruptsNotFollowed()
    ensures !IsPhandleProperty("interrupts")
  {
    NotFollowed("interrupts");
  }

  lemma {:induction false} ExtendedNotFollowed()
    ensures !IsPhandleProperty("interrupts-extended")
  {
    assert "interrupts-extended"[18] == 'd';
    NotFollowed("interrupts-extended");
  }

  lemma {:induction false} PwmsNotFollowed()
    ensures !IsPhandleProperty("pwms")
  {
    NotFollowed("pwms");
  }

  /** Of the properties that go by a count, three are never followed as dependencies. */
  lemma {:induction false} CountedIsFollowedIff(name: string)
    requires CellsProperty(name).Some?
    ensures IsPhandleProperty(name) <==> name !in {"interrupts", "interrupts-extended", "pwms"}
  {
    InterruptsNotFollowed();
    ExtendedNotFollowed();
    PwmsNotFollowed();
    if name !in {"interrupts", "interrupts-extended", "pwms"} {
      Followed(name);
    }
  }

  lemma {:induction false} Followed(name: string)
    requires CellsProperty(name).Some? && name !in {"interrupts", "interrupts-extended", "pwms"}
    ensures IsPhandleProperty(name)
  {
    assert PHANDLE_PROPERTIES[0] == "clocks" && PHANDLE_PROPERTIES[1] == "power-domains";
    assert PHANDLE_PROPERTIES[2] == "phys" && PHANDLE_PROPERTIES[3] == "resets" && PHANDLE_PROPERTIES[4] == "dmas";
    assert PHANDLE_PROPERTIES[5] == "thermal-sensors" && PHANDLE_PROPERTIES[6] == "mboxes";
    assert PHANDLE_PROPERTIES[7] == "assigned-clocks" && PHANDLE_PROPERTIES[17] == "sound-dai";
  }

  /** A count is collected for `iommus`, which is followed, and it is never asked for. */
  lemma {:induction false} IommusIsUncounted()
    ensures IsCellCount(CountName("iommu")) && IsPhandleProperty("iommus")
    ensures !exists kind :: IsCounted(kind) && RefersToKind("iommus", kind)
  {
    CountNames();
    Plurals();
    assert PHANDLE_PROPERTIES[14] == "iommus";
  }

  // ---- what is followed

  /** Properties that are followed and hold handles only. */
  predicate HoldsHandles(name: string) {
    || EndsWith(name, "-supply")
    || name in {"interrupt-parent", "phy-handle", "msi-parent", "memory-region", "syscon", "regmap", "iommus",
                "interconnects", "nvmem-cells", "pinctrl-0", "pinctrl-1", "pinctrl-2", "pinctrl-3", "pinctrl-4"}
  }

  lemma {:induction false} HandlesAreFollowed(name: string)
    requires HoldsHandles(name)
    ensures IsPhandleProperty(name)
  {
    assert PHANDLE_PROPERTIES[8] == "interrupt-parent" && PHANDLE_PROPERTIES[9] == "phy-handle";
    assert PHANDLE_PROPERTIES[10] == "msi-parent" && PHANDLE_PROPERTIES[11] == "memory-region";
    assert PHANDLE_PROPERTIES[12] == "syscon" && PHANDLE_PROPERTIES[13] == "regmap";
    assert PHANDLE_PROPERTIES[14] == "iommus" && PHANDLE_PROPERTIES[15] == "interconnects";
    assert PHANDLE_PROPERTIES[16] == "nvmem-cells" && PHANDLE_PROPERTIES[18] == "pinctrl-0";
    assert PHANDLE_PROPERTIES[19] == "pinctrl-1" && PHANDLE_PROPERTIES[20] == "pinctrl-2";
    assert PHANDLE_PROPERTIES[21] == "pinctrl-3" && PHANDLE_PROPERTIES[22] == "pinctrl-4";
  }

  /** A counted name has one of few ends. */
  lemma {:induction false} CountedEnds(name: string)
    requires CellsProperty(name).Some?
    ensures name != "" && name[|name| - 1] in {'s', 'o', 'i', 'd'}
  {
    if EndsWith(name, "-gpios") { SuffixIn(name, "-gpios"); }
    else if EndsWith(name, "-gpio") { SuffixIn(name, "-gpio"); }
  }

  lemma {:induction false} OtherEnd(name: string)
    requires name != "" && name[|name| - 1] !in {'s', 'o', 'i', 'd'}
    ensures CellsProperty(name).None?
  {
    if CellsProperty(name).Some? { CountedEnds(name); }
  }

  lemma {:induction false} ParentsAreUncounted()
    ensures CellsProperty("interrupt-parent").None? && CellsProperty("msi-parent").None?
    ensures CellsProperty("phy-handle").None? && CellsProperty("memory-region").None?
    ensures CellsProperty("syscon").None? && CellsProperty("regmap").None?
  {
    assert "interrupt-parent"[15] == 't' && "msi-parent"[9] == 't' && "phy-handle"[9] == 'e';
    assert "memory-region"[12] == 'n' && "syscon"[5] == 'n' && "regmap"[5] == 'p';
    OtherEnd("interrupt-parent");
    OtherEnd("msi-parent");
    OtherEnd("phy-handle");
    OtherEnd("memory-region");
    OtherEnd("syscon");
    OtherEnd("regmap");
  }

  lemma {:induction false} PinsAreUncounted()
    ensures CellsProperty("pinctrl-0").None? && CellsProperty("pinctrl-1").None?
    ensures CellsProperty("pinctrl-2").None? && CellsProperty("pinctrl-3").None? && CellsProperty("pinctrl-4").None?
  {
    assert "pinctrl-0"[8] == '0' && "pinctrl-1"[8] == '1' && "pinctrl-2"[8] == '2';
    assert "pinctrl-3"[8] == '3' && "pinctrl-4"[8] == '4';
    OtherEnd("pinctrl-0");
    OtherEnd("pinctrl-1");
    OtherEnd("pinctrl-2");
    OtherEnd("pinctrl-3");
    OtherEnd("pinctrl-4");
  }

  lemma {:induction false} IommusUncounted()
    ensures CellsProperty("iommus").None?
  {
    if EndsWith("iommus", "-gpios") { SuffixIn("iommus", "-gpios"); }
    if EndsWith("iommus", "-gpio") { SuffixIn("iommus", "-gpio"); }
  }

  lemma {:induction false} InterconnectsUncounted()
    ensures CellsProperty("interconnects").None?
  {
    if EndsWith("interconnects", "-gpios") { SuffixIn("interconnects", "-gpios"); }
    if EndsWith("interconnects", "-gpio") { SuffixIn("interconnects", "-gpio"); }
  }

  lemma {:induction false} NvmemUncounted()
    ensures CellsProperty("nvmem-cells").None?
  {
    assert "nvmem-cells"[10] == 's' && "nvmem-cells"[5..] == "-cells" != "-gpios";
    if EndsWith("nvmem-cells", "-gpio") { SuffixIn("nvmem-cells", "-gpio"); }
  }

  lemma {:induction false} HandlesAreUncounted(name: string)
    requires HoldsHandles(name)
    ensures CellsProperty(name).None?
  {
    ParentsAreUncounted();
    PinsAreUncounted();
    IommusUncounted();
    InterconnectsUncounted();
    NvmemUncounted();
    if EndsWith(name, "-supply") {
      SuffixIn(name, "-supply");
      OtherEnd(name);
    }
  }

  lemma {:induction false} HandlesHas(cells: seq<U32>, pm: PhandleMap, path: string)
    ensures (exists r :: r in Handles(cells, pm) && r.phandle in pm && pm[r.phandle].path == path) <==>
      exists c :: c in cells && c in pm && pm[c].path == path
  {
    if cells != [] {
      HandlesHas(cells[1..], pm, path);
      var head := if cells[0] in pm then [Ref(cells[0], [])] else [];
      assert forall r :: r in Handles(cells, pm) <==> r in head || r in Handles(cells[1..], pm);
      if cells[0] in pm {
        assert Ref(cells[0], []) in Handles(cells, pm);
      }
    }
  }

  /** A property of handles makes a device depend on exactly the nodes that its cells are handles of. */
  lemma {:induction false} HandlesAreDependencies(name: string, cells: seq<U32>, path: string, pm: PhandleMap)
    requires HoldsHandles(name)
    ensures PropRefersTo(Prop(name, EncodeCells(cells)), path, pm) <==>
      exists c :: c in cells && c in pm && pm[c].path == path
  {
    HandlesAreFollowed(name);
    HandlesAreUncounted(name);
    UncountedName(name);
    EncodedCellsParse(cells, name, pm);
    UncountedHandles(cells, name, pm);
    HandlesHas(cells, pm, path);
  }

  /** A property of references with specifiers makes it depend on exactly the nodes the references are to. */
  lemma {:induction false} RefsAreDependencies(refs: seq<Ref>, name: string, kind: string, path: string, pm: PhandleMap)
    requires IsCounted(kind) && RefersToKind(name, kind) && name !in {"interrupts", "interrupts-extended", "pwms"}
    requires forall k :: 0 <= k < |refs| ==>
      refs[k].phandle in pm && |refs[k].specifiers| == OwnCount(kind, pm[refs[k].phandle])
    ensures PropRefersTo(Prop(name, EncodeCells(EncodeRefs(refs))), path, pm) <==>
      exists k :: 0 <= k < |refs| && pm[refs[k].phandle].path == path
  {
    CountOfKind(name, kind);
    CountedIsFollowedIff(name);
    OwnCountsRoundTrip(refs, name, kind, pm);
    if k :| 0 <= k < |refs| && pm[refs[k].phandle].path == path {
      assert refs[k] in refs;
    }
  }

  lemma {:induction false} CellsNames(name: string)
    ensures (Contains(name, "cells") ==> name != "")
    ensures (Contains(name, "cells") && !("#" <= name) && |name| >= 4) <==> Contains(name, "cells") && name[0] != '#'
  {
    if Contains(name, "cells") {
      var k :| 0 <= k <= |name| && "cells" <= name[k..];
      assert |name| >= 5;
      assert "#" <= name <==> name[0] == '#';
    }
  }

  lemma {:induction false} ListedIsOneOf(name: string)
    requires name in PHANDLE_PROPERTIES
    ensures HoldsHandles(name) || (CellsProperty(name).Some? && name !in {"interrupts", "interrupts-extended", "pwms"})
  {
  }

  /** Followed are the properties of handles, those of counted references but three, and one more form. */
  lemma {:induction false} FollowedIff(name: string)
    ensures Contains(name, "cells") ==> name != ""
    ensures IsPhandleProperty(name) <==>
      || HoldsHandles(name)
      || (name !in {"interrupts", "interrupts-extended", "pwms"}
          && exists kind :: IsCounted(kind) && RefersToKind(name, kind))
      || (Contains(name, "cells") && name[0] != '#')
  {
    UncountedName(name);
    if HoldsHandles(name) { HandlesAreFollowed(name); }
    if CellsProperty(name).Some? { CountedIsFollowedIff(name); }
    CellsNames(name);
    if name in PHANDLE_PROPERTIES { ListedIsOneOf(name); }
  }
}
