/** Properties that hold phandle references with a specifier whose length the target decides. */
module Phandles {
  import opened Basics
  import opened Cells
  import opened DeviceTree

  /** What is known of the node behind a phandle: its path and its `#*-cells` properties. */
  datatype Target = Target(path: string, cells: map<string, U32>)

  type PhandleMap = map<U32, Target>

  /** One reference: a phandle and the specifier cells that follow it. */
  datatype Ref = Ref(phandle: U32, specifiers: seq<U32>)

  predicate Contains(s: string, part: string) {
    exists k :: 0 <= k <= |s| && part <= s[k..]
  }

  /** The `#*-cells` property that gives the specifier length for a referring property. */
  function CellsProperty(name: string): Option<string> {
    if name == "clocks" || name == "assigned-clocks" then Some("#clock-cells")
    else if name == "resets" then Some("#reset-cells")
    else if name == "power-domains" then Some("#power-domain-cells")
    else if name == "phys" then Some("#phy-cells")
    else if name == "interrupts" || name == "interrupts-extended" then Some("#interrupt-cells")
    else if name == "gpios" || EndsWith(name, "-gpios") || EndsWith(name, "-gpio") then Some("#gpio-cells")
    else if name == "dmas" then Some("#dma-cells")
    else if name == "thermal-sensors" then Some("#thermal-sensor-cells")
    else if name == "sound-dai" then Some("#sound-dai-cells")
    else if name == "mboxes" then Some("#mbox-cells")
    else if name == "pwms" then Some("#pwm-cells")
    else None
  }

  function CellsCount(name: string, cells: map<string, U32>): nat {
    match CellsProperty(name)
    case None => 0
    case Some(key) => if key in cells then cells[key] else 0
  }

  /** The references found in a cell array. */
  function ParseCells(cells: seq<U32>, name: string, pm: PhandleMap): seq<Ref> {
    if cells == [] then []
    else if cells[0] !in pm then ParseCells(cells[1..], name, pm)
    else
      var n := CellsCount(name, pm[cells[0]].cells);
      if n < |cells| then [Ref(cells[0], cells[1..n + 1])] + ParseCells(cells[n + 1..], name, pm)
      else []
  }

  /** The references found in a property value; data that is no cell array holds none. */
  function ParseProperty(data: seq<Byte>, name: string, pm: PhandleMap): seq<Ref> {
    if |data| % 4 != 0 then [] else ParseCells(DecodeCells(data), name, pm)
  }

  /** `parse_phandle_property_with_cells` */
  method ParsePhandleProperty(data: seq<Byte>, name: string, pm: PhandleMap) returns (refs: seq<Ref>)
    ensures refs == ParseProperty(data, name, pm)
  {
    refs := [];
    if data == [] || |data| % 4 != 0 {
      return;
    }
    var cells := DecodeCells(data);
    var i := 0;
    while i < |cells|
      invariant 0 <= i <= |cells|
      invariant refs + ParseCells(cells[i..], name, pm) == ParseCells(cells, name, pm)
    {
      var potential := cells[i];
      if potential in pm {
        var n := CellsCount(name, pm[potential].cells);
        ParseAt(cells, i, name, pm);
        if i + n < |cells| {
          var ref := Ref(potential, cells[i + 1..i + n + 1]);
          Assoc(refs, [ref], ParseCells(cells[i + n + 1..], name, pm));
          refs := refs + [ref];
          i := i + n + 1;
        } else {
          break;
        }
      } else {
        ParseAt(cells, i, name, pm);
        i := i + 1;
      }
    }
    EmptyAppend(refs);
    if i == |cells| {
      assert cells[i..] == [];
    }
  }

  /** The parser at one position of an array. */
  lemma {:induction false} ParseAt(cells: seq<U32>, i: nat, name: string, pm: PhandleMap)
    requires i < |cells|
    ensures cells[i] !in pm ==> ParseCells(cells[i..], name, pm) == ParseCells(cells[i + 1..], name, pm)
    ensures cells[i] in pm ==>
      var n := CellsCount(name, pm[cells[i]].cells);
      ParseCells(cells[i..], name, pm) ==
        if i + n < |cells|
        then [Ref(cells[i], cells[i + 1..i + n + 1])] + ParseCells(cells[i + n + 1..], name, pm)
        else []
  {
    var rest := cells[i..];
    assert rest[1..] == cells[i + 1..];
    if cells[i] in pm {
      var n := CellsCount(name, pm[cells[i]].cells);
      if i + n < |cells| {
        assert rest[1..n + 1] == cells[i + 1..i + n + 1] && rest[n + 1..] == cells[i + n + 1..];
      }
    }
  }

  // ---- what the parser finds, without the parser

  /** A piece of a cell array: a cell that is no phandle, a reference, or a reference cut short by the end. */
  datatype Piece = Noise(cell: U32) | Whole(ref: Ref) | Cut(cells: seq<U32>)

  predicate Proper(p: Piece, name: string, pm: PhandleMap) {
    match p
    case Noise(c) => c !in pm
    case Whole(r) => r.phandle in pm && |r.specifiers| == CellsCount(name, pm[r.phandle].cells)
    case Cut(cs) => cs != [] && cs[0] in pm && |cs| <= CellsCount(name, pm[cs[0]].cells)
  }

  /** Proper pieces, of which only the last may be cut short. */
  predicate ProperAll(pieces: seq<Piece>, name: string, pm: PhandleMap) {
    forall k :: 0 <= k < |pieces| ==> Proper(pieces[k], name, pm) && (pieces[k].Cut? ==> k == |pieces| - 1)
  }

  function PieceCells(p: Piece): seq<U32> {
    match p
    case Noise(c) => [c]
    case Whole(r) => [r.phandle] + r.specifiers
    case Cut(cs) => cs
  }

  function AllCells(pieces: seq<Piece>): seq<U32> {
    if pieces == [] then [] else PieceCells(pieces[0]) + AllCells(pieces[1..])
  }

  function Refs(pieces: seq<Piece>): seq<Ref> {
    if pieces == [] then []
    else (if pieces[0].Whole? then [pieces[0].ref] else []) + Refs(pieces[1..])
  }

  /** Parsing finds exactly the references of any cell array that is made of proper pieces. */
  lemma {:induction false} ParsePieces(pieces: seq<Piece>, name: string, pm: PhandleMap)
    requires ProperAll(pieces, name, pm)
    ensures ParseCells(AllCells(pieces), name, pm) == Refs(pieces)
  {
    if pieces != [] {
      var p, rest, cells := pieces[0], AllCells(pieces[1..]), AllCells(pieces);
      ParsePieces(pieces[1..], name, pm);
      match p
      case Noise(c) =>
        assert cells[1..] == rest;
      case Whole(r) =>
        var n := |r.specifiers|;
        assert cells[1..n + 1] == r.specifiers && cells[n + 1..] == rest;
      case Cut(cs) =>
        assert pieces[1..] == [];
        assert cells == cs;
    }
  }

  /** Every cell array is made of proper pieces, without gaps, overlaps or changed cells. */
  lemma {:induction false} PiecesOf(cells: seq<U32>, name: string, pm: PhandleMap) returns (pieces: seq<Piece>)
    ensures ProperAll(pieces, name, pm) && AllCells(pieces) == cells
  {
    if cells == [] {
      pieces := [];
    } else if cells[0] !in pm {
      var rest := PiecesOf(cells[1..], name, pm);
      pieces := [Noise(cells[0])] + rest;
      assert pieces[1..] == rest;
    } else {
      var n := CellsCount(name, pm[cells[0]].cells);
      if n < |cells| {
        var rest := PiecesOf(cells[n + 1..], name, pm);
        pieces := [Whole(Ref(cells[0], cells[1..n + 1]))] + rest;
        assert pieces[1..] == rest;
      } else {
        pieces := [Cut(cells)];
        assert AllCells(pieces[1..]) == [];
      }
    }
  }

  /** On arbitrary data the references are those of a gapless decomposition of the data. */
  lemma {:induction false} ParsedVerbatim(data: seq<Byte>, name: string, pm: PhandleMap)
    requires |data| % 4 == 0
    ensures exists pieces ::
      ProperAll(pieces, name, pm) && AllCells(pieces) == DecodeCells(data)
      && ParseProperty(data, name, pm) == Refs(pieces)
  {
    var pieces := PiecesOf(DecodeCells(data), name, pm);
    ParsePieces(pieces, name, pm);
  }

  function EncodeRefs(refs: seq<Ref>): seq<U32> {
    if refs == [] then [] else [refs[0].phandle] + refs[0].specifiers + EncodeRefs(refs[1..])
  }

  lemma {:induction false} RefsArePieces(refs: seq<Ref>, name: string, pm: PhandleMap) returns (pieces: seq<Piece>)
    requires forall k :: 0 <= k < |refs| ==> Proper(Whole(refs[k]), name, pm)
    ensures ProperAll(pieces, name, pm) && AllCells(pieces) == EncodeRefs(refs) && Refs(pieces) == refs
  {
    if refs == [] {
      pieces := [];
    } else {
      var rest := RefsArePieces(refs[1..], name, pm);
      pieces := [Whole(refs[0])] + rest;
      assert pieces[1..] == rest;
    }
  }

  lemma {:induction false} EncodedRefsParse(refs: seq<Ref>, name: string, pm: PhandleMap)
    requires forall k :: 0 <= k < |refs| ==> Proper(Whole(refs[k]), name, pm)
    ensures ParseCells(EncodeRefs(refs), name, pm) == refs
  {
    var pieces := RefsArePieces(refs, name, pm);
    ParsePieces(pieces, name, pm);
  }

  lemma {:induction false} EncodedCellsParse(cells: seq<U32>, name: string, pm: PhandleMap)
    ensures ParseProperty(EncodeCells(cells), name, pm) == ParseCells(cells, name, pm)
  {
    CellsRoundTrip(cells);
  }

  /** A list of references with the specifier lengths their targets ask for survives encoding and parsing. */
  lemma {:induction false} RefsRoundTrip(refs: seq<Ref>, name: string, pm: PhandleMap)
    requires forall k :: 0 <= k < |refs| ==> Proper(Whole(refs[k]), name, pm)
    ensures ParseProperty(EncodeCells(EncodeRefs(refs)), name, pm) == refs
  {
    EncodedCellsParse(EncodeRefs(refs), name, pm);
    EncodedRefsParse(refs, name, pm);
  }

  // ---- the dependencies of a device

  const PHANDLE_PROPERTIES: seq<string> := [
    "clocks", "power-domains", "phys", "resets", "dmas", "thermal-sensors", "mboxes", "assigned-clocks",
    "interrupt-parent", "phy-handle", "msi-parent", "memory-region", "syscon", "regmap", "iommus",
    "interconnects", "nvmem-cells", "sound-dai", "pinctrl-0", "pinctrl-1", "pinctrl-2", "pinctrl-3",
    "pinctrl-4"
  ]

  predicate IsPhandleProperty(name: string) {
    || name in PHANDLE_PROPERTIES
    || EndsWith(name, "-supply")
    || name == "gpios"
    || EndsWith(name, "-gpios")
    || EndsWith(name, "-gpio")
    || (Contains(name, "cells") && !("#" <= name) && |name| >= 4)
  }

  /** `path` is what some reference in the property points to. */
  ghost predicate PropRefersTo(p: Prop, path: string, pm: PhandleMap) {
    IsPhandleProperty(p.name) &&
    exists r :: r in ParseProperty(p.value, p.name, pm) && r.phandle in pm && pm[r.phandle].path == path
  }

  ghost predicate RefersTo(d: NodeData, path: string, pm: PhandleMap) {
    exists k :: 0 <= k < |d.props| && PropRefersTo(d.props[k], path, pm)
  }

  type NodeCache = map<string, seq<FdtNode>>

  /** Some node cached under `device` refers to `path`. */
  ghost predicate DependsOn(device: string, path: string, pm: PhandleMap, cache: NodeCache) {
    device in cache && exists i :: 0 <= i < |cache[device]| && RefersTo(cache[device][i].data, path, pm)
  }

  /** `parse_phandle_property` */
  method ReferredPaths(data: seq<Byte>, name: string, pm: PhandleMap) returns (paths: seq<string>)
    requires IsPhandleProperty(name)
    ensures forall p :: p in paths <==> PropRefersTo(Prop(name, data), p, pm)
  {
    var refs := ParsePhandleProperty(data, name, pm);
    paths := [];
    for k := 0 to |refs|
      invariant forall p :: p in paths <==>
        exists r :: r in refs[..k] && r.phandle in pm && pm[r.phandle].path == p
    {
      assert refs[..k + 1] == refs[..k] + [refs[k]];
      if refs[k].phandle in pm {
        assert refs[k] in refs[..k + 1];
        paths := paths + [pm[refs[k].phandle].path];
      }
    }
    assert refs[..|refs|] == refs;
  }

  method NodeDependencies(d: NodeData, pm: PhandleMap) returns (paths: seq<string>)
    ensures forall p :: p in paths <==> RefersTo(d, p, pm)
  {
    paths := [];
    for k := 0 to |d.props|
      invariant forall p :: p in paths <==> exists j :: 0 <= j < k && PropRefersTo(d.props[j], p, pm)
    {
      var prop := d.props[k];
      if IsPhandleProperty(prop.name) {
        var found := ReferredPaths(prop.value, prop.name, pm);
        assert Prop(prop.name, prop.value) == prop;
        paths := paths + found;
      }
    }
  }

  /** `find_device_dependencies` */
  method FindDeviceDependencies(device: string, pm: PhandleMap, cache: NodeCache) returns (paths: seq<string>)
    ensures forall p :: p in paths <==> DependsOn(device, p, pm, cache)
  {
    paths := [];
    if device in cache {
      var nodes := cache[device];
      for i := 0 to |nodes|
        invariant forall p :: p in paths <==> exists k :: 0 <= k < i && RefersTo(nodes[k].data, p, pm)
      {
        var found := NodeDependencies(nodes[i].data, pm);
        paths := paths + found;
      }
    }
  }
}
