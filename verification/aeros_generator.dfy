/**
 * The AERO-S ("solid") mesh generator: the target mesh as text, section by
 * section, each section closed by a line holding only '*'.
 *
 * The grammar is written with the combinators of module Karma. Its lists
 * are relaxed: a node, element, surface or selection group that cannot be
 * written is skipped, what its rule wrote before failing stays, and a list
 * fails only when none of its elements can be written. A rule with an
 * `| eps` fallback then emits nothing instead. The generated version string
 * is a parameter; coordinates are rendered by the `render` parameter.
 *
 * SolidLines lays the output out as lines for a mesh whose every row can be
 * written; SolidLinesText proves it is then the generated text.
 */
module AerosGenerator {
  import opened Wrappers
  import opened Text
  import opened Karma
  import AM = AeroMesh
  import opened AeroRows

  const GenerationFailed := "Aero mesh generation failed."

  /** `rule << eol << '*' << eol`: a section closed by a '*' line. */
  function Closed(a: Attempt): Attempt {
    Then(a, Lit("\n*\n"))
  }

  /** A surface: its id alone (the prefix is generated inside `omit`), its rows, and a '*' line. */
  function SurfaceItem(b: AM.Bucket): Attempt {
    Then(Block("SURFACETOPO " + NatToString(b.key.id), ElementItems(b.elements)), Lit("\n*"))
  }

  function SurfaceItems(t: seq<AM.Bucket>): (r: seq<Attempt>)
    ensures |r| == |t|
  {
    seq(|t|, i requires 0 <= i < |t| => SurfaceItem(t[i]))
  }

  /** The surfaces separated by line feeds, or nothing when none can be written. */
  function SurfacesRule(t: seq<AM.Bucket>): Attempt {
    OrEmpty(List(SurfaceItems(t), "\n"))
  }

  /** `selection_topology << eol`: the selection's name line, its rows, and a line feed. */
  function GroupItem(g: AM.SelectionSurface): Attempt {
    Then(Block("* Selection name: " + g.name, ElementItems(g.elements)), Lit("\n"))
  }

  /** The groups, each after "SURFACETOPO", its position from 1 and a blank. */
  function GroupItems(gs: seq<AM.SelectionSurface>): (r: seq<Attempt>)
    ensures |r| == |gs|
  {
    Numbered("SURFACETOPO ", seq(|gs|, i requires 0 <= i < |gs| => GroupItem(gs[i])), 1)
  }

  /** The groups separated by line feeds, then '*'; or nothing when no group can be written. */
  function SelectionsRule(gs: seq<AM.SelectionSurface>): Attempt {
    OrEmpty(Then(List(GroupItems(gs), "\n"), Lit("*")))
  }

  /** The `mesh` rule, section by section. */
  function MeshParts<R>(m: AM.Mesh<R>, matusage: bool, version: string, render: R -> string): (r: seq<Attempt>)
    ensures |r| == 8
  {
    [ Lit("* Created with comsol2aero version " + version + "\n*\n"),
      Closed(Block("NODES", NodeItems(m.nodes, render))),
      Closed(Block("TOPOLOGY", ElementItems(m.elements))),
      Closed(LabelsRule(m.attributeLabels)),
      Closed(ValuesRule("ATTRIBUTES", m.attributes)),
      OrEmpty(Then(Eps(matusage), Closed(ValuesRule("MATUSAGE", m.attributes)))),
      Closed(SurfacesRule(m.surfaceTopologies)),
      Then(SelectionsRule(m.selectionSurfaceTopologies), Lit("\n")) ]
  }

  /** The solid mesh text, or the generation error. */
  function Generate<R>(m: AM.Mesh<R>, matusage: bool, version: string, render: R -> string): (r: Result<string, string>)
    ensures r.Failure? <==> !NodesGenerate(m.nodes) || !ElementsGenerate(m.elements) || |m.attributes| == 0
    ensures r.Failure? ==> r.error == GenerationFailed
  {
    var run := Sequence(MeshParts(m, matusage, version, render));
    MeshOk(m, matusage, version, render);
    if run.ok then Success(run.out) else Failure(GenerationFailed)
  }

  /** The only sections that can fail are the nodes, the elements and the attributes. */
  lemma MeshOk<R>(m: AM.Mesh<R>, matusage: bool, version: string, render: R -> string)
    ensures Sequence(MeshParts(m, matusage, version, render)).ok <==>
              NodesGenerate(m.nodes) && ElementsGenerate(m.elements) && |m.attributes| > 0
  {
    NodesBlockOk("NODES", m.nodes, render);
    ElementsBlockOk("TOPOLOGY", m.elements);
    ValuesBlockOk("ATTRIBUTES", m.attributes);
    LabelsBlock(m.attributeLabels);
    SequenceOfEight(
      Lit("* Created with comsol2aero version " + version + "\n*\n"),
      Closed(Block("NODES", NodeItems(m.nodes, render))),
      Closed(Block("TOPOLOGY", ElementItems(m.elements))),
      Closed(LabelsRule(m.attributeLabels)),
      Closed(ValuesRule("ATTRIBUTES", m.attributes)),
      OrEmpty(Then(Eps(matusage), Closed(ValuesRule("MATUSAGE", m.attributes)))),
      Closed(SurfacesRule(m.surfaceTopologies)),
      Then(SelectionsRule(m.selectionSurfaceTopologies), Lit("\n")));
  }

  function HeaderLines(version: string): seq<string> {
    ["* Created with comsol2aero version " + version, "*"]
  }

  function NodesLines<R>(nodes: seq<seq<R>>, render: R -> string): seq<string> {
    ["NODES"] + Indexed("", NodeRows(nodes, render), 1)
  }

  function TopologyLines(es: seq<AM.Element>): seq<string> {
    ["TOPOLOGY"] + Indexed("", ElementRows(es), 1)
  }

  /** The labels block, or an empty line when there are no labels. */
  function LabelLines(labels: seq<string>): (r: seq<string>)
    ensures |r| == if |labels| == 0 then 1 else 1 + |labels|
  {
    if |labels| == 0 then [""] else ["* Attributes/matusage labels"] + Indexed("* ", labels, 1)
  }

  function AttributeLines(attributes: seq<nat>): seq<string> {
    ["ATTRIBUTES"] + Indexed("", NatTexts(attributes), 1)
  }

  function MatusageLines(attributes: seq<nat>): seq<string> {
    ["MATUSAGE"] + Indexed("", NatTexts(attributes), 1)
  }

  /** One surface block: headed by the surface id alone, the prefix is not written. */
  function SurfaceBlock(b: AM.Bucket): seq<string> {
    ["SURFACETOPO " + NatToString(b.key.id)] + Indexed("", ElementRows(b.elements), 1) + ["*"]
  }

  function SurfaceBlocks(t: seq<AM.Bucket>): seq<string> {
    if |t| == 0 then [] else SurfaceBlock(t[0]) + SurfaceBlocks(t[1..])
  }

  /** The surface blocks, or an empty line when there are no surfaces. */
  function SurfaceLines(t: seq<AM.Bucket>): seq<string> {
    if |t| == 0 then [""] else SurfaceBlocks(t)
  }

  /** Group number k: its title line, then its rows (none for an empty group). */
  function SelectionBlock(g: AM.SelectionSurface, k: nat): seq<string> {
    [SelectionTitle(g, k)] + Indexed("", ElementRows(g.elements), 1)
  }

  /** The title line of group number k, naming the selection it came from. */
  function SelectionTitle(g: AM.SelectionSurface, k: nat): string {
    "SURFACETOPO " + NatToString(k) + " " + ("* Selection name: " + g.name)
  }

  /** Which groups have elements. */
  function GroupOks(gs: seq<AM.SelectionSurface>): (r: seq<bool>)
    ensures |r| == |gs|
  {
    seq(|gs|, j requires 0 <= j < |gs| => |gs[j].elements| > 0)
  }

  /** Each group's block, numbered by its position. */
  function GroupBlocks(gs: seq<AM.SelectionSurface>): (r: seq<seq<string>>)
    ensures |r| == |gs|
  {
    seq(|gs|, j requires 0 <= j < |gs| => SelectionBlock(gs[j], j + 1))
  }

  /**
   * The selection groups as lines, when every row can be written: a group
   * with elements gets its block, numbered by its position; an empty group
   * before a later group with elements leaves its title line; an empty line
   * follows each group with elements but the last, and '*' closes them. When
   * no group has elements, the section is an empty line.
   */
  function SelectionLines(gs: seq<AM.SelectionSurface>): seq<string> {
    if SomeFrom(GroupOks(gs), 0) then ListLines(GroupOks(gs), GroupBlocks(gs), 0) + ["*"] else [""]
  }

  /** Every row of the mesh can be written, there are attributes, and every surface has elements. */
  predicate Complete<R>(m: AM.Mesh<R>) {
    && NodesComplete(m.nodes) && ElementsComplete(m.elements) && |m.attributes| > 0
    && (forall i :: 0 <= i < |m.surfaceTopologies| ==> ElementsComplete(m.surfaceTopologies[i].elements))
    && (forall i :: 0 <= i < |m.selectionSurfaceTopologies| ==> RowsComplete(m.selectionSurfaceTopologies[i].elements))
  }

  /** Everything up to the attributes block. */
  function BeforeAttributes<R>(m: AM.Mesh<R>, version: string, render: R -> string): (r: seq<string>)
    ensures |r| == 7 + |m.nodes| + |m.elements| + |LabelLines(m.attributeLabels)|
  {
    HeaderLines(version) + NodesLines(m.nodes, render) + ["*"] + TopologyLines(m.elements) + ["*"]
      + LabelLines(m.attributeLabels) + ["*"]
  }

  function AfterMatusage<R>(m: AM.Mesh<R>): seq<string> {
    SurfaceLines(m.surfaceTopologies) + ["*"] + SelectionLines(m.selectionSurfaceTopologies)
  }

  /** The output of a complete mesh, as lines. */
  function SolidLines<R>(m: AM.Mesh<R>, matusage: bool, version: string, render: R -> string): seq<string> {
    BeforeAttributes(m, version, render) + AttributeLines(m.attributes) + ["*"]
      + (if matusage then MatusageLines(m.attributes) + ["*"] else [])
      + AfterMatusage(m)
  }

  /** The line where the attributes block starts. */
  function AttributesAt<R>(m: AM.Mesh<R>): nat {
    7 + |m.nodes| + |m.elements| + |LabelLines(m.attributeLabels)|
  }

  /** Reads an ATTRIBUTES or MATUSAGE block's rows back to the values. */
  function ReadValues(rows: seq<string>): Option<seq<nat>> {
    match ReadIndexed("", rows, 1)
    case None => None
    case Some(fields) => ParseNats(fields)
  }

  lemma ValuesRoundTrip(values: seq<nat>)
    ensures ReadValues(Indexed("", NatTexts(values), 1)) == Some(values)
  {
    ReadIndexedRoundTrip("", NatTexts(values), 1);
    ParseNatTexts(values);
  }

  /** The lines of a successful generation, cut at the attributes block. */
  lemma SolidShape<R>(m: AM.Mesh<R>, matusage: bool, version: string, render: R -> string)
    ensures SolidLines(m, matusage, version, render)
              == BeforeAttributes(m, version, render)
                 + ((AttributeLines(m.attributes) + ["*"])
                    + ((if matusage then MatusageLines(m.attributes) + ["*"] else []) + AfterMatusage(m)))
  {
    Regroup(BeforeAttributes(m, version, render), AttributeLines(m.attributes), ["*"],
            if matusage then MatusageLines(m.attributes) + ["*"] else [], AfterMatusage(m));
  }

  lemma Regroup<T>(b: seq<T>, a: seq<T>, star: seq<T>, x: seq<T>, rest: seq<T>)
    ensures b + a + star + x + rest == b + ((a + star) + (x + rest))
  {
  }

  lemma Slices<T>(p: seq<T>, q: seq<T>, r: seq<T>)
    ensures (p + (q + r))[..|p|] == p
    ensures (p + (q + r))[|p|..|p| + |q|] == q
    ensures (p + (q + r))[|p| + |q|..] == r
  {
  }

  /** The solid output starts with everything before the attributes block. */
  lemma SolidStartsWith<R>(m: AM.Mesh<R>, matusage: bool, version: string, render: R -> string)
    ensures var before := BeforeAttributes(m, version, render);
            var lines := SolidLines(m, matusage, version, render);
            |before| < |lines| && lines[..|before|] == before
  {
    SolidShape(m, matusage, version, render);
  }

  /** Slices of a prefix are slices of the whole. */
  lemma PrefixSlice<T>(lines: seq<T>, before: seq<T>, i: nat, j: nat)
    requires |before| <= |lines| && lines[..|before|] == before && i <= j <= |before|
    ensures lines[i..j] == before[i..j]
    ensures j < |before| ==> lines[j] == before[j]
  {
    var p := lines[..|before|];
    forall k | 0 <= k < j - i ensures lines[i..j][k] == before[i..j][k] {
      assert lines[i + k] == p[i + k];
    }
    if j < |before| {
      assert lines[j] == p[j];
    }
  }

  /** The opening lines are the same for every mesh and every flag. */
  lemma SolidOpening<R>(m: AM.Mesh<R>, matusage: bool, version: string, render: R -> string)
    ensures var lines := SolidLines(m, matusage, version, render);
            |lines| > 3 && lines[..2] == HeaderLines(version) && lines[2] == "NODES"
  {
    var before := BeforeAttributes(m, version, render);
    var lines := SolidLines(m, matusage, version, render);
    SolidStartsWith(m, matusage, version, render);
    assert before[..2] == HeaderLines(version) && before[2] == "NODES";
    PrefixSlice(lines, before, 0, 2);
  }

  /** The node block and the element block, as they sit at the start of the output. */
  lemma BeforeBlocks<R>(m: AM.Mesh<R>, version: string, render: R -> string)
    ensures var before := BeforeAttributes(m, version, render);
            var n := |m.nodes|;
            var e := |m.elements|;
            && before[3..3 + n] == Indexed("", NodeRows(m.nodes, render), 1)
            && before[3 + n] == "*" && before[4 + n] == "TOPOLOGY"
            && before[5 + n..5 + n + e] == Indexed("", ElementRows(m.elements), 1)
            && before[5 + n + e] == "*"
  {
  }

  /** The NODES rows read back to the rendered node rows, numbered from 1. */
  lemma SolidNodes<R>(m: AM.Mesh<R>, matusage: bool, version: string, render: R -> string)
    ensures var lines := SolidLines(m, matusage, version, render);
            var n := |m.nodes|;
            && |lines| > 4 + n
            && ReadIndexed("", lines[3..3 + n], 1) == Some(NodeRows(m.nodes, render))
            && lines[3 + n] == "*"
  {
    var lines := SolidLines(m, matusage, version, render);
    var before := BeforeAttributes(m, version, render);
    var n := |m.nodes|;
    SolidStartsWith(m, matusage, version, render);
    assert before[3..3 + n] == Indexed("", NodeRows(m.nodes, render), 1) && before[3 + n] == "*" by {
      BeforeBlocks(m, version, render);
    }
    PrefixSlice(lines, before, 3, 3 + n);
    ReadIndexedRoundTrip("", NodeRows(m.nodes, render), 1);
  }

  /**
   * The TOPOLOGY block follows the nodes block and holds one row per element,
   * numbered from 1; ElementBlockRoundTrip reads such rows back.
   */
  lemma SolidElements<R>(m: AM.Mesh<R>, matusage: bool, version: string, render: R -> string)
    ensures var lines := SolidLines(m, matusage, version, render);
            var n := |m.nodes|;
            var e := |m.elements|;
            && |lines| > 5 + n + e
            && lines[4 + n] == "TOPOLOGY"
            && lines[5 + n..5 + n + e] == Indexed("", ElementRows(m.elements), 1)
            && lines[5 + n + e] == "*"
  {
    var lines := SolidLines(m, matusage, version, render);
    var before := BeforeAttributes(m, version, render);
    var n := |m.nodes|;
    var e := |m.elements|;
    SolidStartsWith(m, matusage, version, render);
    assert before[4 + n] == "TOPOLOGY" && before[5 + n..5 + n + e] == Indexed("", ElementRows(m.elements), 1)
           && before[5 + n + e] == "*" by {
      BeforeBlocks(m, version, render);
    }
    PrefixSlice(lines, before, 4 + n, 4 + n);
    PrefixSlice(lines, before, 5 + n, 5 + n + e);
  }

  /** Everything before the attributes block ends with a '*' line. */
  lemma BeforeAttributesEnd<R>(m: AM.Mesh<R>, version: string, render: R -> string)
    ensures var before := BeforeAttributes(m, version, render);
            |before| == AttributesAt(m) && before[|before| - 1] == "*"
  {
  }

  /** An attributes block placed after a '*' line, in any surroundings. */
  lemma AttributesBlockAt(lines: seq<string>, before: seq<string>, attributes: seq<nat>, rest: seq<string>)
    requires lines == before + ((AttributeLines(attributes) + ["*"]) + rest)
    requires |before| > 0 && before[|before| - 1] == "*"
    ensures var a := |before|;
            var k := |attributes|;
            && |lines| > a + k + 1
            && lines[a - 1] == "*" && lines[a] == "ATTRIBUTES"
            && ReadValues(lines[a + 1..a + 1 + k]) == Some(attributes)
            && lines[a + 1 + k] == "*"
  {
    var block := AttributeLines(attributes) + ["*"];
    var k := |attributes|;
    var a := |before|;
    Slices(before, block, rest);
    var mid := lines[a..a + |block|];
    assert mid == block;
    assert lines[a - 1] == lines[..a][a - 1] == "*";
    assert lines[a] == mid[0] == "ATTRIBUTES";
    assert lines[a + 1..a + 1 + k] == block[1..1 + k] == Indexed("", NatTexts(attributes), 1);
    assert lines[a + 1 + k] == mid[1 + k] == "*";
    ValuesRoundTrip(attributes);
  }

  /** The ATTRIBUTES block reads back to the mesh's attributes. */
  lemma SolidAttributes<R>(m: AM.Mesh<R>, matusage: bool, version: string, render: R -> string)
    ensures var lines := SolidLines(m, matusage, version, render);
            var a := AttributesAt(m);
            var k := |m.attributes|;
            && |lines| > a + k + 1
            && lines[a - 1] == "*" && lines[a] == "ATTRIBUTES"
            && ReadValues(lines[a + 1..a + 1 + k]) == Some(m.attributes)
            && lines[a + 1 + k] == "*"
  {
    var lines := SolidLines(m, matusage, version, render);
    var before := BeforeAttributes(m, version, render);
    var rest := (if matusage then MatusageLines(m.attributes) + ["*"] else []) + AfterMatusage(m);
    assert lines == before + ((AttributeLines(m.attributes) + ["*"]) + rest) by {
      SolidShape(m, matusage, version, render);
    }
    BeforeAttributesEnd(m, version, render);
    AttributesBlockAt(lines, before, m.attributes, rest);
  }

  /** Inserting a block after a prefix keeps the prefix and the rest, shifted. */
  lemma Inserted<T>(p: seq<T>, q: seq<T>, r: seq<T>)
    ensures |p + (q + r)| == |p + r| + |q|
    ensures (p + (q + r))[..|p|] == (p + r)[..|p|]
    ensures (p + (q + r))[|p|..|p| + |q|] == q
    ensures (p + (q + r))[|p| + |q|..] == (p + r)[|p|..]
  {
  }

  /** Lines a + 1 .. a + k are repeated after a MATUSAGE line at a + k + 2, and a '*' line closes them. */
  predicate RepeatedAfter(lines: seq<string>, a: nat, k: nat) {
    && |lines| > a + 2 * k + 3
    && lines[a + k + 2] == "MATUSAGE"
    && lines[a + k + 3..a + 2 * k + 3] == lines[a + 1..a + 1 + k]
    && lines[a + 2 * k + 3] == "*"
  }

  /** The attribute rows and the MATUSAGE rows are the same lines. */
  lemma MatusageRepeatsAttributes(before: seq<string>, attributes: seq<nat>, after: seq<string>)
    ensures RepeatedAfter((before + (AttributeLines(attributes) + ["*"])) + ((MatusageLines(attributes) + ["*"]) + after),
                          |before|, |attributes|)
  {
    var attrs := AttributeLines(attributes) + ["*"];
    var mat := MatusageLines(attributes) + ["*"];
    var k := |attributes|;
    Slices(before + attrs, mat, after);
    Slices(before, attrs, mat + after);
    assert attrs[1..1 + k] == mat[1..1 + k];
  }

  /** The lines of the solid output with MATUSAGE, cut around the MATUSAGE block. */
  lemma SolidWith<R>(m: AM.Mesh<R>, version: string, render: R -> string)
    ensures SolidLines(m, true, version, render)
              == (BeforeAttributes(m, version, render) + (AttributeLines(m.attributes) + ["*"]))
                 + ((MatusageLines(m.attributes) + ["*"]) + AfterMatusage(m))
  {
    SolidShape(m, true, version, render);
  }

  /** The lines of the solid output without MATUSAGE, cut after the attributes block. */
  lemma SolidWithout<R>(m: AM.Mesh<R>, version: string, render: R -> string)
    ensures SolidLines(m, false, version, render)
              == (BeforeAttributes(m, version, render) + (AttributeLines(m.attributes) + ["*"])) + AfterMatusage(m)
  {
    SolidShape(m, false, version, render);
    assert [] + AfterMatusage(m) == AfterMatusage(m);
  }

  /**
   * Asking for MATUSAGE inserts one block right after the attributes block
   * and changes no other line.
   */
  lemma SolidMatusageInserted<R>(m: AM.Mesh<R>, version: string, render: R -> string)
    ensures var with := SolidLines(m, true, version, render);
            var without := SolidLines(m, false, version, render);
            var u := AttributesAt(m) + |m.attributes| + 2;
            && |without| >= u && |with| == |without| + |m.attributes| + 2
            && with[..u] == without[..u]
            && with[u + |m.attributes| + 2..] == without[u..]
  {
    SolidWith(m, version, render);
    SolidWithout(m, version, render);
    BeforeAttributesEnd(m, version, render);
    var before := BeforeAttributes(m, version, render);
    Inserted(before + (AttributeLines(m.attributes) + ["*"]), MatusageLines(m.attributes) + ["*"], AfterMatusage(m));
  }

  /** The inserted MATUSAGE block repeats the attribute rows line for line. */
  lemma SolidMatusageRepeats<R>(m: AM.Mesh<R>, version: string, render: R -> string)
    ensures RepeatedAfter(SolidLines(m, true, version, render), AttributesAt(m), |m.attributes|)
  {
    SolidWith(m, version, render);
    BeforeAttributesEnd(m, version, render);
    MatusageRepeatsAttributes(BeforeAttributes(m, version, render), m.attributes, AfterMatusage(m));
  }

  /** A section that succeeds with the given lines, closed by a '*' line. */
  lemma ClosedLines(a: Attempt, lines: seq<string>)
    requires a.ok && a.out + "\n" == Unlines(lines)
    ensures Closed(a).ok && Closed(a).out == Unlines(lines + ["*"])
  {
    UnlinesAppend(lines, ["*"]);
  }

  /** A surface whose every row can be written is its block, less the last line feed. */
  lemma SurfaceItemLines(b: AM.Bucket)
    requires ElementsComplete(b.elements)
    ensures SurfaceItem(b).ok && SurfaceItem(b).out + "\n" == Unlines(SurfaceBlock(b))
  {
    var title := "SURFACETOPO " + NatToString(b.key.id);
    var rows := Indexed("", ElementRows(b.elements), 1);
    ElementsBlockLines(title, b.elements);
    UnlinesAppend([title] + rows, ["*"]);
  }

  lemma {:induction false} SurfaceItemsLines(t: seq<AM.Bucket>)
    requires |t| > 0 && forall i :: 0 <= i < |t| ==> ElementsComplete(t[i].elements)
    ensures Join(Outs(SurfaceItems(t)), "\n") + "\n" == Unlines(SurfaceBlocks(t))
  {
    var outs := Outs(SurfaceItems(t));
    SurfaceItemLines(t[0]);
    assert SurfaceBlocks(t) == SurfaceBlock(t[0]) + SurfaceBlocks(t[1..]);
    assert outs[0] == SurfaceItem(t[0]).out;
    if |t| == 1 {
      assert Join(outs, "\n") == outs[0];
      assert SurfaceBlocks(t[1..]) == [];
      assert SurfaceBlock(t[0]) + [] == SurfaceBlock(t[0]);
    } else {
      assert Join(outs, "\n") + "\n" == outs[0] + "\n" + (Join(Outs(SurfaceItems(t[1..])), "\n") + "\n") by {
        assert outs[1..] == Outs(SurfaceItems(t[1..]));
      }
      SurfaceItemsLines(t[1..]);
      UnlinesAppend(SurfaceBlock(t[0]), SurfaceBlocks(t[1..]));
    }
  }

  /** The surface section of a complete mesh, as lines. */
  lemma SurfacesLines(t: seq<AM.Bucket>)
    requires forall i :: 0 <= i < |t| ==> ElementsComplete(t[i].elements)
    ensures Closed(SurfacesRule(t)).ok && Closed(SurfacesRule(t)).out == Unlines(SurfaceLines(t) + ["*"])
  {
    var items := SurfaceItems(t);
    if |t| == 0 {
      assert !AnyOk(items);
    } else {
      forall i | 0 <= i < |t| ensures items[i].ok {
        SurfaceItemLines(t[i]);
      }
      ListAllOk(items, "\n");
      SurfaceItemsLines(t);
    }
    ClosedLines(SurfacesRule(t), SurfaceLines(t));
  }

  /**
   * A group whose rows can all be written, after "SURFACETOPO" and its
   * number k, is its block; an empty group fails after writing its title line.
   */
  lemma GroupItemOf(g: AM.SelectionSurface, k: nat)
    requires RowsComplete(g.elements)
    ensures Then(Lit("SURFACETOPO " + NatToString(k) + " "), GroupItem(g))
              == Attempt(Unlines(SelectionBlock(g, k)), |g.elements| > 0)
  {
    if |g.elements| > 0 {
      GroupWithRows(g, k);
    } else {
      GroupWithoutRows(g, k);
    }
  }

  lemma GroupWithRows(g: AM.SelectionSurface, k: nat)
    requires ElementsComplete(g.elements)
    ensures Then(Lit("SURFACETOPO " + NatToString(k) + " "), GroupItem(g)) == Attempt(Unlines(SelectionBlock(g, k)), true)
  {
    var name := "* Selection name: " + g.name;
    var lead := "SURFACETOPO " + NatToString(k) + " ";
    var rows := Indexed("", ElementRows(g.elements), 1);
    ElementsBlockLines(name, g.elements);
    LeadBlock(lead, Block(name, ElementItems(g.elements)), name, rows);
    assert SelectionBlock(g, k) == [lead + name] + rows;
  }

  /** `lead << block << eol`, for a block that succeeds with the given lines. */
  lemma LeadBlock(lead: string, b: Attempt, first: string, rest: seq<string>)
    requires b.ok && b.out + "\n" == Unlines([first] + rest)
    ensures Then(Lit(lead), Then(b, Lit("\n"))) == Attempt(Unlines([lead + first] + rest), true)
  {
    assert ([first] + rest)[1..] == rest;
    assert ([lead + first] + rest)[1..] == rest;
  }

  lemma GroupWithoutRows(g: AM.SelectionSurface, k: nat)
    requires |g.elements| == 0
    ensures Then(Lit("SURFACETOPO " + NatToString(k) + " "), GroupItem(g)) == Attempt(Unlines(SelectionBlock(g, k)), false)
  {
    var name := "* Selection name: " + g.name;
    assert GroupItem(g) == Attempt(name + "\n", false) by {
      assert !ElementsGenerate(g.elements);
      ElementsBlockFails(name, g.elements);
      assert Concat(ElementItems(g.elements)) == "";
    }
    assert SelectionBlock(g, k) == [SelectionTitle(g, k)];
  }

  lemma GroupItemLines(gs: seq<AM.SelectionSurface>, i: nat)
    requires i < |gs| && RowsComplete(gs[i].elements)
    ensures GroupItems(gs)[i] == Attempt(Unlines(SelectionBlock(gs[i], i + 1)), |gs[i].elements| > 0)
  {
    assert GroupItems(gs)[i] == Then(Lit("SURFACETOPO " + NatToString(1 + i) + " "), GroupItem(gs[i]));
    GroupItemOf(gs[i], i + 1);
  }

  /** Every group after its number, as lines. */
  lemma GroupItemsLines(gs: seq<AM.SelectionSurface>)
    requires forall j :: 0 <= j < |gs| ==> RowsComplete(gs[j].elements)
    ensures forall j :: 0 <= j < |gs| ==> GroupItems(gs)[j] == Attempt(Unlines(GroupBlocks(gs)[j]), GroupOks(gs)[j])
  {
    forall j | 0 <= j < |gs| ensures GroupItems(gs)[j] == Attempt(Unlines(GroupBlocks(gs)[j]), GroupOks(gs)[j]) {
      GroupItemLines(gs, j);
    }
  }

  /** `(list << '*' | eps) << eol`, for a list that succeeds with the given lines. */
  lemma StarClosed(l: Attempt, lines: seq<string>)
    requires l.ok && l.out == Unlines(lines)
    ensures Then(OrEmpty(Then(l, Lit("*"))), Lit("\n")) == Attempt(Unlines(lines + ["*"]), true)
  {
    UnlinesAppend(lines, ["*"]);
  }

  /** The selection section of a complete mesh, as lines. */
  lemma SelectionsLines(gs: seq<AM.SelectionSurface>)
    requires forall j :: 0 <= j < |gs| ==> RowsComplete(gs[j].elements)
    ensures Then(SelectionsRule(gs), Lit("\n")).ok
    ensures Then(SelectionsRule(gs), Lit("\n")).out == Unlines(SelectionLines(gs))
  {
    var items := GroupItems(gs);
    var oks := GroupOks(gs);
    var blocks := GroupBlocks(gs);
    var l := List(items, "\n");
    GroupItemsLines(gs);
    ListPieces(items, "\n");
    if SomeFrom(oks, 0) {
      assert AnyOk(items) by {
        var j :| 0 <= j < |gs| && oks[j];
        assert items[j].ok;
      }
      assert l.ok && l.out == Unlines(ListLines(oks, blocks, 0)) by {
        PiecesLines(items, oks, blocks, 0);
      }
      StarClosed(l, ListLines(oks, blocks, 0));
      assert SelectionLines(gs) == ListLines(oks, blocks, 0) + ["*"];
    } else {
      assert !l.ok by {
        forall j | 0 <= j < |items| ensures !items[j].ok {
          assert !oks[j];
        }
      }
      assert SelectionLines(gs) == [""];
    }
  }

  /** The sections of a complete mesh, each as lines. */
  function SolidChunks<R>(m: AM.Mesh<R>, matusage: bool, version: string, render: R -> string): (r: seq<seq<string>>)
    ensures |r| == 8
  {
    [ HeaderLines(version), NodesLines(m.nodes, render) + ["*"], TopologyLines(m.elements) + ["*"],
      LabelLines(m.attributeLabels) + ["*"], AttributeLines(m.attributes) + ["*"],
      if matusage then MatusageLines(m.attributes) + ["*"] else [],
      SurfaceLines(m.surfaceTopologies) + ["*"], SelectionLines(m.selectionSurfaceTopologies) ]
  }

  lemma SolidChunksFlatten<R>(m: AM.Mesh<R>, matusage: bool, version: string, render: R -> string)
    ensures Flatten(SolidChunks(m, matusage, version, render)) == SolidLines(m, matusage, version, render)
  {
    FlattenEight(SolidChunks(m, matusage, version, render));
    FlatShape(HeaderLines(version), NodesLines(m.nodes, render), TopologyLines(m.elements),
              LabelLines(m.attributeLabels), AttributeLines(m.attributes),
              if matusage then MatusageLines(m.attributes) + ["*"] else [],
              SurfaceLines(m.surfaceTopologies), SelectionLines(m.selectionSurfaceTopologies), ["*"]);
  }

  lemma FlatShape<T>(h: seq<T>, n: seq<T>, t: seq<T>, l: seq<T>, a: seq<T>, x: seq<T>, s: seq<T>, sel: seq<T>, star: seq<T>)
    ensures h + ((n + star) + ((t + star) + ((l + star) + ((a + star) + (x + ((s + star) + sel))))))
            == h + n + star + t + star + l + star + a + star + x + (s + star + sel)
  {
  }

  /** Each section of a complete mesh writes its lines. */
  lemma SolidPartsLines<R>(m: AM.Mesh<R>, matusage: bool, version: string, render: R -> string)
    requires Complete(m)
    ensures forall k :: 0 <= k < 8 ==>
              MeshParts(m, matusage, version, render)[k].out == Unlines(SolidChunks(m, matusage, version, render)[k])
  {
    HeaderText(version);
    NodesPartLines(m.nodes, render);
    TopologyPartLines(m.elements);
    LabelsPartLines(m.attributeLabels);
    AttributesPartLines(m.attributes);
    MatusagePartLines(matusage, m.attributes);
    SurfacesLines(m.surfaceTopologies);
    SelectionsLines(m.selectionSurfaceTopologies);
    EightLines(
      Lit("* Created with comsol2aero version " + version + "\n*\n"),
      Closed(Block("NODES", NodeItems(m.nodes, render))),
      Closed(Block("TOPOLOGY", ElementItems(m.elements))),
      Closed(LabelsRule(m.attributeLabels)),
      Closed(ValuesRule("ATTRIBUTES", m.attributes)),
      OrEmpty(Then(Eps(matusage), Closed(ValuesRule("MATUSAGE", m.attributes)))),
      Closed(SurfacesRule(m.surfaceTopologies)),
      Then(SelectionsRule(m.selectionSurfaceTopologies), Lit("\n")),
      HeaderLines(version), NodesLines(m.nodes, render) + ["*"], TopologyLines(m.elements) + ["*"],
      LabelLines(m.attributeLabels) + ["*"], AttributeLines(m.attributes) + ["*"],
      if matusage then MatusageLines(m.attributes) + ["*"] else [],
      SurfaceLines(m.surfaceTopologies) + ["*"], SelectionLines(m.selectionSurfaceTopologies));
  }

  lemma NodesPartLines<R>(nodes: seq<seq<R>>, render: R -> string)
    requires NodesComplete(nodes)
    ensures Closed(Block("NODES", NodeItems(nodes, render))).out == Unlines(NodesLines(nodes, render) + ["*"])
  {
    NodesBlockLines("NODES", nodes, render);
    ClosedLines(Block("NODES", NodeItems(nodes, render)), NodesLines(nodes, render));
  }

  lemma TopologyPartLines(es: seq<AM.Element>)
    requires ElementsComplete(es)
    ensures Closed(Block("TOPOLOGY", ElementItems(es))).out == Unlines(TopologyLines(es) + ["*"])
  {
    ElementsBlockLines("TOPOLOGY", es);
    ClosedLines(Block("TOPOLOGY", ElementItems(es)), TopologyLines(es));
  }

  lemma LabelsPartLines(labels: seq<string>)
    ensures Closed(LabelsRule(labels)).out == Unlines(LabelLines(labels) + ["*"])
  {
    LabelsBlock(labels);
    ClosedLines(LabelsRule(labels), LabelLines(labels));
  }

  lemma AttributesPartLines(attributes: seq<nat>)
    requires |attributes| > 0
    ensures Closed(ValuesRule("ATTRIBUTES", attributes)).out == Unlines(AttributeLines(attributes) + ["*"])
  {
    ValuesBlockLines("ATTRIBUTES", attributes);
    ClosedLines(ValuesRule("ATTRIBUTES", attributes), AttributeLines(attributes));
  }

  /** `(eps(matusage) << block) | eps`: the MATUSAGE block only when asked for. */
  lemma MatusagePartLines(matusage: bool, attributes: seq<nat>)
    requires |attributes| > 0
    ensures OrEmpty(Then(Eps(matusage), Closed(ValuesRule("MATUSAGE", attributes)))).out
            == Unlines(if matusage then MatusageLines(attributes) + ["*"] else [])
  {
    ValuesBlockLines("MATUSAGE", attributes);
    ClosedLines(ValuesRule("MATUSAGE", attributes), MatusageLines(attributes));
  }

  lemma HeaderText(version: string)
    ensures Unlines(HeaderLines(version)) == "* Created with comsol2aero version " + version + "\n*\n"
  {
    var title := "* Created with comsol2aero version " + version;
    assert Unlines(["*"]) == "*\n" by {
      assert Unlines(["*"]) == "*" + "\n" + Unlines([]);
    }
    assert HeaderLines(version)[1..] == ["*"];
    assert Unlines(HeaderLines(version)) == title + "\n" + "*\n";
    assert "\n" + "*\n" == "\n*\n";
    assert title + "\n" + "*\n" == title + ("\n" + "*\n");
  }

  lemma EightLines(p0: Attempt, p1: Attempt, p2: Attempt, p3: Attempt, p4: Attempt, p5: Attempt, p6: Attempt, p7: Attempt,
                    c0: seq<string>, c1: seq<string>, c2: seq<string>, c3: seq<string>,
                    c4: seq<string>, c5: seq<string>, c6: seq<string>, c7: seq<string>)
    requires p0.out == Unlines(c0) && p1.out == Unlines(c1) && p2.out == Unlines(c2) && p3.out == Unlines(c3)
    requires p4.out == Unlines(c4) && p5.out == Unlines(c5) && p6.out == Unlines(c6) && p7.out == Unlines(c7)
    ensures forall k :: 0 <= k < 8 ==>
              [p0, p1, p2, p3, p4, p5, p6, p7][k].out == Unlines([c0, c1, c2, c3, c4, c5, c6, c7][k])
  {
  }

  /** The output of a complete mesh is its lines, each followed by a line feed. */
  lemma SolidLinesText<R>(m: AM.Mesh<R>, matusage: bool, version: string, render: R -> string)
    requires Complete(m)
    ensures Generate(m, matusage, version, render) == Success(Unlines(SolidLines(m, matusage, version, render)))
  {
    var parts := MeshParts(m, matusage, version, render);
    var chunks := SolidChunks(m, matusage, version, render);
    MeshOk(m, matusage, version, render);
    SolidPartsLines(m, matusage, version, render);
    ConcatLines(parts, chunks);
    SolidChunksFlatten(m, matusage, version, render);
  }

  /** The lines of the chunks, one after another. */
  function Flatten<T>(chunks: seq<seq<T>>): seq<T> {
    if |chunks| == 0 then [] else chunks[0] + Flatten(chunks[1..])
  }

  lemma {:induction false} ConcatLines(parts: seq<Attempt>, chunks: seq<seq<string>>)
    requires |parts| == |chunks| && forall k :: 0 <= k < |parts| ==> parts[k].out == Unlines(chunks[k])
    ensures Concat(parts) == Unlines(Flatten(chunks))
  {
    if |parts| > 0 {
      ConcatLines(parts[1..], chunks[1..]);
      UnlinesAppend(chunks[0], Flatten(chunks[1..]));
    }
  }

  lemma FlattenEight<T>(c: seq<seq<T>>)
    requires |c| == 8
    ensures Flatten(c) == c[0] + (c[1] + (c[2] + (c[3] + (c[4] + (c[5] + (c[6] + c[7]))))))
  {
    assert Flatten(c[7..]) == c[7] by {
      assert c[7..][1..] == [];
    }
    assert Flatten(c[6..]) == c[6] + c[7] by {
      assert c[6..][1..] == c[7..];
    }
    assert Flatten(c[5..]) == c[5] + (c[6] + c[7]) by {
      assert c[5..][1..] == c[6..];
    }
    assert Flatten(c[4..]) == c[4] + (c[5] + (c[6] + c[7])) by {
      assert c[4..][1..] == c[5..];
    }
    assert Flatten(c[3..]) == c[3] + (c[4] + (c[5] + (c[6] + c[7]))) by {
      assert c[3..][1..] == c[4..];
    }
    assert Flatten(c[2..]) == c[2] + (c[3] + (c[4] + (c[5] + (c[6] + c[7])))) by {
      assert c[2..][1..] == c[3..];
    }
    assert Flatten(c[1..]) == c[1] + (c[2] + (c[3] + (c[4] + (c[5] + (c[6] + c[7]))))) by {
      assert c[1..][1..] == c[2..];
    }
  }

  /** The solid text of a complete mesh, cut at line feeds, gives its lines, when no line holds a line feed. */
  lemma SolidText<R>(m: AM.Mesh<R>, matusage: bool, version: string, render: R -> string)
    requires Complete(m)
    requires NoLineFeed(SolidLines(m, matusage, version, render))
    ensures Generate(m, matusage, version, render).Success?
    ensures Split(Generate(m, matusage, version, render).value, '\n')
              == SolidLines(m, matusage, version, render) + [""]
  {
    SolidLinesText(m, matusage, version, render);
    SplitUnlines(SolidLines(m, matusage, version, render));
  }

  /** Surface blocks do not write the prefix: buckets differing only in prefix print the same block. */
  lemma SurfaceBlockIgnoresPrefix(b: AM.Bucket, prefix: string)
    ensures SurfaceBlock(AM.Bucket(AM.TopologyId(prefix, b.key.id), b.elements)) == SurfaceBlock(b)
  {
  }

  /** A surface block reads back to its surface id and elements. */
  lemma SurfaceBlockRoundTrip(b: AM.Bucket)
    requires RowsComplete(b.elements)
    ensures var lines := SurfaceBlock(b);
            var n := |b.elements|;
            && |lines| == n + 2
            && CutAt(lines[0], ' ') == Some(("SURFACETOPO", NatToString(b.key.id)))
            && ParseNat(NatToString(b.key.id)) == Some(b.key.id)
            && ReadIndexed("", lines[1..n + 1], 1) == Some(ElementRows(b.elements))
            && ReadElementRows(ElementRows(b.elements)) == Some(b.elements)
            && lines[n + 1] == "*"
  {
    var lines := SurfaceBlock(b);
    var n := |b.elements|;
    CutAtJoined("SURFACETOPO", NatToString(b.key.id), ' ');
    assert lines[0] == "SURFACETOPO" + [' '] + NatToString(b.key.id);
    ParseNatToString(b.key.id);
    assert lines[1..n + 1] == Indexed("", ElementRows(b.elements), 1);
    ElementBlockRoundTrip(b.elements);
  }

  /** The surface blocks hold every bucket's block, in map order. */
  lemma {:induction false} SurfaceBlocksLength(t: seq<AM.Bucket>)
    ensures |SurfaceBlocks(t)| == |t| * 2 + SurfaceElementCount(t)
  {
    if |t| > 0 {
      SurfaceBlocksLength(t[1..]);
    }
  }

  function SurfaceElementCount(t: seq<AM.Bucket>): nat {
    if |t| == 0 then 0 else |t[0].elements| + SurfaceElementCount(t[1..])
  }

  /**
   * The surface section falls back to nothing only when no surface can be
   * written. Otherwise it is the relaxed list of the surfaces: a surface none
   * of whose rows can be written is skipped, and is written exactly when
   * some row of it can be.
   */
  lemma SurfaceFallback(t: seq<AM.Bucket>)
    ensures SurfacesRule(t).ok
    ensures SurfacesRule(t).out == if SurfacesGenerate(t) then Pieces(SurfaceItems(t), "\n", 0) else ""
    ensures forall i :: 0 <= i < |t| ==> SurfaceItems(t)[i].ok == ElementsGenerate(t[i].elements)
  {
    var items := SurfaceItems(t);
    forall i | 0 <= i < |t| ensures items[i].ok == ElementsGenerate(t[i].elements) {
      ElementsBlockOk("SURFACETOPO " + NatToString(t[i].key.id), t[i].elements);
    }
    ListPieces(items, "\n");
    if AnyOk(items) {
      var i :| 0 <= i < |items| && items[i].ok;
      assert SurfacesGenerate(t);
    }
    if SurfacesGenerate(t) {
      var i :| 0 <= i < |t| && ElementsGenerate(t[i].elements);
      assert items[i].ok;
    }
  }

  /**
   * A skipped surface leaves its header line and, for each of its elements,
   * the running index and the type id.
   */
  lemma SurfaceSkipped(b: AM.Bucket)
    requires !ElementsGenerate(b.elements)
    ensures !SurfaceItem(b).ok
    ensures SurfaceItem(b).out == "SURFACETOPO " + NatToString(b.key.id) + "\n" + Concat(ElementItems(b.elements))
  {
    ElementsBlockFails("SURFACETOPO " + NatToString(b.key.id), b.elements);
  }

  /**
   * A selection group with a row that can be written appears in the output
   * under its title, numbered by its position among all the groups, the
   * groups skipped before it included.
   */
  lemma SelectionNumbering<R>(m: AM.Mesh<R>, matusage: bool, version: string, render: R -> string, j: nat)
    requires Generate(m, matusage, version, render).Success?
    requires j < |m.selectionSurfaceTopologies| && ElementsGenerate(m.selectionSurfaceTopologies[j].elements)
    ensures Within(SelectionTitle(m.selectionSurfaceTopologies[j], j + 1) + "\n", Generate(m, matusage, version, render).value)
  {
    var gs := m.selectionSurfaceTopologies;
    GroupWithinList(gs, j);
    SelectionsWithin(m, matusage, version, render, SelectionTitle(gs[j], j + 1) + "\n");
  }

  /** The title line of a group that succeeds is written by the group list. */
  lemma GroupWithinList(gs: seq<AM.SelectionSurface>, j: nat)
    requires j < |gs| && ElementsGenerate(gs[j].elements)
    ensures List(GroupItems(gs), "\n").ok
    ensures Within(SelectionTitle(gs[j], j + 1) + "\n", List(GroupItems(gs), "\n").out)
  {
    var items := GroupItems(gs);
    var title := SelectionTitle(gs[j], j + 1) + "\n";
    assert items[j] == Then(Lit("SURFACETOPO " + NatToString(j + 1) + " "), GroupItem(gs[j]));
    GroupItemTitle(gs[j], j + 1);
    ListWritesOk(items, "\n", j);
    WithinTransitive(title, items[j].out, List(items, "\n").out);
  }

  /** A group that has a row to write succeeds, and its output starts with its title line. */
  lemma GroupItemTitle(g: AM.SelectionSurface, k: nat)
    requires ElementsGenerate(g.elements)
    ensures Then(Lit("SURFACETOPO " + NatToString(k) + " "), GroupItem(g)).ok
    ensures Within(SelectionTitle(g, k) + "\n", Then(Lit("SURFACETOPO " + NatToString(k) + " "), GroupItem(g)).out)
  {
    var name := "* Selection name: " + g.name;
    var lead := "SURFACETOPO " + NatToString(k) + " ";
    var rows := ElementItems(g.elements);
    ElementsBlockOk(name, g.elements);
    BlockOk(name, rows);
    LeadTitle(lead, name, rows);
    var title := SelectionTitle(g, k) + "\n";
    assert title == (lead + name) + "\n";
    WithinSelf(title);
    WithinAround(title, List(rows, "\n").out + "\n", title);
  }

  /** `lead << (title << eol << rows % eol) << eol`, for rows that succeed. */
  lemma LeadTitle(lead: string, name: string, rows: seq<Attempt>)
    requires List(rows, "\n").ok
    ensures Then(Lit(lead), Then(Block(name, rows), Lit("\n")))
              == Attempt((lead + name) + "\n" + (List(rows, "\n").out + "\n"), true)
  {
  }

  /** What the group list writes is within the output. */
  lemma SelectionsWithin<R>(m: AM.Mesh<R>, matusage: bool, version: string, render: R -> string, s: string)
    requires Generate(m, matusage, version, render).Success?
    requires List(GroupItems(m.selectionSurfaceTopologies), "\n").ok
    requires Within(s, List(GroupItems(m.selectionSurfaceTopologies), "\n").out)
    ensures Within(s, Generate(m, matusage, version, render).value)
  {
    var l := List(GroupItems(m.selectionSurfaceTopologies), "\n");
    var parts := MeshParts(m, matusage, version, render);
    WithinAround(s, "*", l.out);
    assert parts[7].out == (l.out + "*") + "\n";
    WithinAround(s, "\n", l.out + "*");
    MeshOk(m, matusage, version, render);
    WithinConcat(s, parts, 7);
  }

  /**
   * Two face selections, the first of whose group is empty: the first is
   * skipped, leaving its title line, and the second keeps number 2.
   */
  lemma SelectionSkipsEmptyGroup()
    ensures Then(SelectionsRule([AM.SelectionSurface("A", []), AM.SelectionSurface("B", [AM.Element(4, [7])])]), Lit("\n"))
              == Lit("SURFACETOPO 1 * Selection name: A" + "\n" + ("SURFACETOPO 2 * Selection name: B" + "\n"
                     + ("1 4 7" + "\n" + ("*" + "\n"))))
  {
    var gs := [AM.SelectionSurface("A", []), AM.SelectionSurface("B", [AM.Element(4, [7])])];
    var t1 := "SURFACETOPO 1 * Selection name: A";
    var t2 := "SURFACETOPO 2 * Selection name: B";
    assert GroupOks(gs) == [false, true];
    ExampleBlocks();
    ListLinesSkipFirst(GroupBlocks(gs));
    assert SomeFrom(GroupOks(gs), 0) by {
      assert GroupOks(gs)[1];
    }
    assert SelectionLines(gs) == [t1, t2, "1 4 7", "*"];
    SelectionsLines(gs);
    FourLines(t1, t2, "1 4 7", "*");
  }

  lemma ExampleBlocks()
    ensures GroupBlocks([AM.SelectionSurface("A", []), AM.SelectionSurface("B", [AM.Element(4, [7])])])
            == [["SURFACETOPO 1 * Selection name: A"], ["SURFACETOPO 2 * Selection name: B", "1 4 7"]]
  {
    var gs := [AM.SelectionSurface("A", []), AM.SelectionSurface("B", [AM.Element(4, [7])])];
    assert NatToString(1) == "1" && NatToString(2) == "2";
    assert SelectionTitle(gs[0], 1) == "SURFACETOPO 1 * Selection name: A";
    assert SelectionTitle(gs[1], 2) == "SURFACETOPO 2 * Selection name: B";
    assert Indexed("", ElementRows(gs[0].elements), 1) == [];
    ExampleRow();
    assert GroupBlocks(gs)[0] == [SelectionTitle(gs[0], 1)] + [];
    assert GroupBlocks(gs)[1] == [SelectionTitle(gs[1], 2)] + ["1 4 7"];
    assert GroupBlocks(gs)[0] == ["SURFACETOPO 1 * Selection name: A"];
    assert GroupBlocks(gs)[1] == ["SURFACETOPO 2 * Selection name: B", "1 4 7"];
  }

  lemma ExampleRow()
    ensures Indexed("", ElementRows([AM.Element(4, [7])]), 1) == ["1 4 7"]
  {
    assert NatToString(1) == "1" && NatToString(4) == "4" && NatToString(7) == "7";
    assert NatTexts([7]) == ["7"];
    assert Join(["7"], " ") == "7";
    assert "4" + " " + "7" == "4 7" && "" + "1" + " " + "4 7" == "1 4 7";
    assert ElementRows([AM.Element(4, [7])])[0] == ElementRow(AM.Element(4, [7])) == "4 7";
    assert Indexed("", ["4 7"], 1)[0] == "1 4 7";
  }

  /** A list of two blocks whose first fails: the first block's lines, then the second's. */
  lemma ListLinesSkipFirst(blocks: seq<seq<string>>)
    requires |blocks| == 2
    ensures ListLines([false, true], blocks, 0) == blocks[0] + blocks[1]
  {
    var oks := [false, true];
    assert SomeFrom(oks, 0) && SomeFrom(oks, 1) by {
      assert oks[1];
    }
    assert ListLines(oks, blocks, 2) == [];
    assert ListLines(oks, blocks, 1) == blocks[1];
  }

  lemma FourLines(a: string, b: string, c: string, d: string)
    ensures Unlines([a, b, c, d]) == a + "\n" + (b + "\n" + (c + "\n" + (d + "\n")))
  {
    assert Unlines([d]) == d + "\n" by {
      assert Unlines([d]) == d + "\n" + Unlines([]);
    }
    assert Unlines([c, d]) == c + "\n" + (d + "\n") by {
      assert [c, d][1..] == [d];
    }
    assert Unlines([b, c, d]) == b + "\n" + (c + "\n" + (d + "\n")) by {
      assert [b, c, d][1..] == [c, d];
    }
    assert [a, b, c, d][1..] == [b, c, d];
  }
}
