/**
 * The AERO-F ("fluid") mesh generator: nodes, the fluid elements, then one
 * block per surface of the ordered surface map.
 *
 * The attribute labels, the attributes and their MATUSAGE copy are generated
 * inside `omit`, which runs the generator with its output switched off: they
 * never appear, but the attributes list still fails when it is empty.
 * Selection groups are not part of this output. The surface list is a
 * relaxed list without a fallback: a surface with no writable row is
 * skipped, its header line left in place, and the generation fails when no
 * surface at all can be written, an empty surface map included.
 *
 * FluidLines is the line layout of a complete mesh (every row writable, at
 * least one surface), and FluidLinesText proves that it is the output.
 */
module AerofGenerator {
  import opened Wrappers
  import opened Text
  import opened Karma
  import AM = AeroMesh
  import opened AeroRows

  const GenerationFailed := "Aero mesh generation failed."

  /** A surface is named by its prefix, "Surface_" and its id. */
  function SurfaceHeader(k: AM.TopologyId): string {
    "Elements " + k.prefix + "Surface_" + NatToString(k.id) + " using FluidNodes"
  }

  /** One surface: its header, then its element rows numbered from 1. */
  function SurfaceItem(b: AM.Bucket): Attempt {
    Block(SurfaceHeader(b.key), ElementItems(b.elements))
  }

  function SurfaceItems(t: seq<AM.Bucket>): (r: seq<Attempt>)
    ensures |r| == |t|
  {
    seq(|t|, i requires 0 <= i < |t| => SurfaceItem(t[i]))
  }

  /**
   * `nodes << eol << elements << eol << omit[labels] << omit[attributes]
   * << omit[matusage] << surfaces << eol`.
   */
  function MeshParts<R>(m: AM.Mesh<R>, render: R -> string): (r: seq<Attempt>)
    ensures |r| == 6
  {
    [ Then(Block("Nodes FluidNodes", NodeItems(m.nodes, render)), Lit("\n")),
      Then(Block("Elements FluidMesh_0 using FluidNodes", ElementItems(m.elements)), Lit("\n")),
      Omit(LabelsRule(m.attributeLabels)),
      Omit(ValuesRule("ATTRIBUTES", m.attributes)),
      Omit(ValuesRule("MATUSAGE", m.attributes)),
      Then(List(SurfaceItems(m.surfaceTopologies), "\n"), Lit("\n")) ]
  }

  /** The fluid mesh text, or the generation error; a failed run's text is discarded. */
  function Generate<R>(m: AM.Mesh<R>, render: R -> string): (r: Result<string, string>)
    ensures r.Failure? <==>
              !NodesGenerate(m.nodes) || !ElementsGenerate(m.elements) || |m.attributes| == 0
              || !SurfacesGenerate(m.surfaceTopologies)
    ensures r.Failure? ==> r.error == GenerationFailed
  {
    var run := Sequence(MeshParts(m, render));
    MeshOk(m, render);
    if run.ok then Success(run.out) else Failure(GenerationFailed)
  }

  /** A surface can be written exactly when one of its element rows can. */
  lemma SurfaceItemOk(b: AM.Bucket)
    ensures SurfaceItem(b).ok <==> ElementsGenerate(b.elements)
  {
    ElementsBlockOk(SurfaceHeader(b.key), b.elements);
  }

  /** The surface list succeeds exactly when some surface can be written. */
  lemma SurfacesOk(t: seq<AM.Bucket>)
    ensures List(SurfaceItems(t), "\n").ok <==> SurfacesGenerate(t)
  {
    var items := SurfaceItems(t);
    ListPieces(items, "\n");
    if AnyOk(items) {
      var i :| 0 <= i < |items| && items[i].ok;
      SurfaceItemOk(t[i]);
    }
    if SurfacesGenerate(t) {
      var i :| 0 <= i < |t| && ElementsGenerate(t[i].elements);
      SurfaceItemOk(t[i]);
      assert items[i].ok;
    }
  }

  /** The sections that can fail are the nodes, the elements, the attributes and the surfaces. */
  lemma MeshOk<R>(m: AM.Mesh<R>, render: R -> string)
    ensures Sequence(MeshParts(m, render)).ok <==>
              NodesGenerate(m.nodes) && ElementsGenerate(m.elements) && |m.attributes| > 0
              && SurfacesGenerate(m.surfaceTopologies)
  {
    NodesBlockOk("Nodes FluidNodes", m.nodes, render);
    ElementsBlockOk("Elements FluidMesh_0 using FluidNodes", m.elements);
    LabelsBlock(m.attributeLabels);
    ValuesBlockOk("ATTRIBUTES", m.attributes);
    ValuesBlockOk("MATUSAGE", m.attributes);
    SurfacesOk(m.surfaceTopologies);
    SequenceOfSix(
      Then(Block("Nodes FluidNodes", NodeItems(m.nodes, render)), Lit("\n")),
      Then(Block("Elements FluidMesh_0 using FluidNodes", ElementItems(m.elements)), Lit("\n")),
      Omit(LabelsRule(m.attributeLabels)),
      Omit(ValuesRule("ATTRIBUTES", m.attributes)),
      Omit(ValuesRule("MATUSAGE", m.attributes)),
      Then(List(SurfaceItems(m.surfaceTopologies), "\n"), Lit("\n")));
  }

  /**
   * The output does not depend on the labels, on the attribute values or on
   * the selection groups: only on whether there are attributes at all.
   */
  lemma FluidIgnoresAttributes<R>(m: AM.Mesh<R>, labels: seq<string>, attributes: seq<nat>,
                                  groups: seq<AM.SelectionSurface>, render: R -> string)
    requires |attributes| > 0 <==> |m.attributes| > 0
    ensures Generate(m.(attributeLabels := labels, attributes := attributes, selectionSurfaceTopologies := groups), render)
              == Generate(m, render)
  {
    var m' := m.(attributeLabels := labels, attributes := attributes, selectionSurfaceTopologies := groups);
    LabelsBlock(labels);
    LabelsBlock(m.attributeLabels);
    ValuesBlockOk("ATTRIBUTES", attributes);
    ValuesBlockOk("ATTRIBUTES", m.attributes);
    ValuesBlockOk("MATUSAGE", attributes);
    ValuesBlockOk("MATUSAGE", m.attributes);
    assert MeshParts(m', render) == MeshParts(m, render);
  }

  /** Without attributes there is no fluid output, although none would be written. */
  lemma FluidNeedsAttributes<R>(m: AM.Mesh<R>, render: R -> string)
    requires |m.attributes| == 0
    ensures Generate(m, render) == Failure(GenerationFailed)
  {
  }

  /** Every row of the mesh can be written, there are attributes, and there is a surface. */
  predicate Complete<R>(m: AM.Mesh<R>) {
    && NodesComplete(m.nodes) && ElementsComplete(m.elements) && |m.attributes| > 0
    && |m.surfaceTopologies| > 0
    && forall i :: 0 <= i < |m.surfaceTopologies| ==> ElementsComplete(m.surfaceTopologies[i].elements)
  }

  function NodesLines<R>(nodes: seq<seq<R>>, render: R -> string): seq<string> {
    ["Nodes FluidNodes"] + Indexed("", NodeRows(nodes, render), 1)
  }

  function ElementsLines(es: seq<AM.Element>): seq<string> {
    ["Elements FluidMesh_0 using FluidNodes"] + Indexed("", ElementRows(es), 1)
  }

  function SurfaceBlock(b: AM.Bucket): seq<string> {
    [SurfaceHeader(b.key)] + Indexed("", ElementRows(b.elements), 1)
  }

  function SurfaceBlocks(t: seq<AM.Bucket>): seq<string> {
    if |t| == 0 then [] else SurfaceBlock(t[0]) + SurfaceBlocks(t[1..])
  }

  /** The output of a complete mesh, as lines. */
  function FluidLines<R>(m: AM.Mesh<R>, render: R -> string): seq<string> {
    NodesLines(m.nodes, render) + ElementsLines(m.elements) + SurfaceBlocks(m.surfaceTopologies)
  }

  /** A surface whose every row can be written is its block, less the last line feed. */
  lemma SurfaceItemLines(b: AM.Bucket)
    requires ElementsComplete(b.elements)
    ensures SurfaceItem(b).ok && SurfaceItem(b).out + "\n" == Unlines(SurfaceBlock(b))
  {
    ElementsBlockLines(SurfaceHeader(b.key), b.elements);
  }

  lemma {:induction false} SurfaceItemsLines(t: seq<AM.Bucket>)
    requires |t| > 0 && forall i :: 0 <= i < |t| ==> ElementsComplete(t[i].elements)
    ensures Join(Outs(SurfaceItems(t)), "\n") + "\n" == Unlines(SurfaceBlocks(t))
  {
    var outs := Outs(SurfaceItems(t));
    SurfaceItemLines(t[0]);
    assert SurfaceBlocks(t) == SurfaceBlock(t[0]) + SurfaceBlocks(t[1..]);
    assert outs[0] == SurfaceItem(t[0]).out;
    if |t| == 1 {
      assert Join(outs, "\n") == outs[0];
      assert SurfaceBlocks(t[1..]) == [];
      assert SurfaceBlock(t[0]) + [] == SurfaceBlock(t[0]);
    } else {
      assert Join(outs, "\n") + "\n" == outs[0] + "\n" + (Join(Outs(SurfaceItems(t[1..])), "\n") + "\n") by {
        assert outs[1..] == Outs(SurfaceItems(t[1..]));
      }
      SurfaceItemsLines(t[1..]);
      UnlinesAppend(SurfaceBlock(t[0]), SurfaceBlocks(t[1..]));
    }
  }

  lemma SurfacesAllOk(t: seq<AM.Bucket>)
    requires forall i :: 0 <= i < |t| ==> ElementsComplete(t[i].elements)
    ensures forall i :: 0 <= i < |t| ==> SurfaceItems(t)[i].ok
  {
    forall i | 0 <= i < |t| ensures SurfaceItems(t)[i].ok {
      SurfaceItemLines(t[i]);
    }
  }

  /** The surface section of a complete mesh, as lines. */
  lemma SurfacesLines(t: seq<AM.Bucket>)
    requires |t| > 0 && forall i :: 0 <= i < |t| ==> ElementsComplete(t[i].elements)
    ensures Then(List(SurfaceItems(t), "\n"), Lit("\n")).ok
    ensures Then(List(SurfaceItems(t), "\n"), Lit("\n")).out == Unlines(SurfaceBlocks(t))
  {
    var items := SurfaceItems(t);
    SurfacesAllOk(t);
    ListAllOk(items, "\n");
    SurfaceItemsLines(t);
  }

  /** The output of a complete mesh is its lines, each followed by a line feed. */
  lemma FluidLinesText<R>(m: AM.Mesh<R>, render: R -> string)
    requires Complete(m)
    ensures Generate(m, render) == Success(Unlines(FluidLines(m, render)))
  {
    var n := NodesLines(m.nodes, render);
    var e := ElementsLines(m.elements);
    var s := SurfaceBlocks(m.surfaceTopologies);
    MeshOk(m, render);
    assert Sequence(MeshParts(m, render)).out == Unlines(n) + (Unlines(e) + ("" + ("" + ("" + Unlines(s))))) by {
      FluidPartsLines(m, render);
    }
    ThreeUnlines(n, e, s);
  }

  lemma ThreeUnlines(n: seq<string>, e: seq<string>, s: seq<string>)
    ensures Unlines(n) + (Unlines(e) + ("" + ("" + ("" + Unlines(s))))) == Unlines(n + e + s)
  {
    assert "" + ("" + ("" + Unlines(s))) == Unlines(s);
    UnlinesAppend(n, e);
    UnlinesAppend(n + e, s);
  }

  lemma FluidPartsLines<R>(m: AM.Mesh<R>, render: R -> string)
    requires Complete(m)
    ensures Concat(MeshParts(m, render))
            == Unlines(NodesLines(m.nodes, render))
               + (Unlines(ElementsLines(m.elements)) + ("" + ("" + ("" + Unlines(SurfaceBlocks(m.surfaceTopologies))))))
  {
    NodesBlockLines("Nodes FluidNodes", m.nodes, render);
    ElementsBlockLines("Elements FluidMesh_0 using FluidNodes", m.elements);
    SurfacesLines(m.surfaceTopologies);
    ConcatSix(
      Then(Block("Nodes FluidNodes", NodeItems(m.nodes, render)), Lit("\n")),
      Then(Block("Elements FluidMesh_0 using FluidNodes", ElementItems(m.elements)), Lit("\n")),
      Omit(LabelsRule(m.attributeLabels)),
      Omit(ValuesRule("ATTRIBUTES", m.attributes)),
      Omit(ValuesRule("MATUSAGE", m.attributes)),
      Then(List(SurfaceItems(m.surfaceTopologies), "\n"), Lit("\n")));
  }

  /** The lines of the parts, one after another. */
  lemma ConcatSix(p0: Attempt, p1: Attempt, p2: Attempt, p3: Attempt, p4: Attempt, p5: Attempt)
    ensures Concat([p0, p1, p2, p3, p4, p5]) == p0.out + (p1.out + (p2.out + (p3.out + (p4.out + p5.out))))
  {
    var ps := [p0, p1, p2, p3, p4, p5];
    assert Concat(ps[5..]) == p5.out by {
      assert ps[5..][1..] == [];
      assert Concat(ps[5..]) == p5.out + "";
    }
    assert Concat(ps[4..]) == p4.out + p5.out by {
      assert ps[4..][1..] == ps[5..];
    }
    assert Concat(ps[3..]) == p3.out + (p4.out + p5.out) by {
      assert ps[3..][1..] == ps[4..];
    }
    assert Concat(ps[2..]) == p2.out + (p3.out + (p4.out + p5.out)) by {
      assert ps[2..][1..] == ps[3..];
    }
    assert Concat(ps[1..]) == p1.out + (p2.out + (p3.out + (p4.out + p5.out))) by {
      assert ps[1..][1..] == ps[2..];
    }
  }

  /** The opening blocks: nodes, then the fluid elements, each numbered from 1. */
  lemma FluidOpening<R>(m: AM.Mesh<R>, render: R -> string)
    ensures var lines := FluidLines(m, render);
            var n := |m.nodes|;
            var e := |m.elements|;
            && |lines| >= 2 + n + e
            && lines[0] == "Nodes FluidNodes"
            && lines[1..1 + n] == Indexed("", NodeRows(m.nodes, render), 1)
            && lines[1 + n] == "Elements FluidMesh_0 using FluidNodes"
            && lines[2 + n..2 + n + e] == Indexed("", ElementRows(m.elements), 1)
            && lines[2 + n + e..] == SurfaceBlocks(m.surfaceTopologies)
  {
    var a := NodesLines(m.nodes, render);
    var b := ElementsLines(m.elements);
    var c := SurfaceBlocks(m.surfaceTopologies);
    var lines := FluidLines(m, render);
    assert lines == a + b + c;
    var n := |m.nodes|;
    assert lines[1..1 + n] == a[1..];
    assert lines[1 + n] == b[0];
    assert lines[2 + n..2 + n + |m.elements|] == b[1..];
    assert lines[2 + n + |m.elements|..] == c;
  }

  /**
   * A surface with a writable row is written under its header, whatever
   * the other surfaces hold.
   */
  lemma SurfaceWritten<R>(m: AM.Mesh<R>, render: R -> string, i: nat)
    requires Generate(m, render).Success?
    requires i < |m.surfaceTopologies| && ElementsGenerate(m.surfaceTopologies[i].elements)
    ensures Within(SurfaceHeader(m.surfaceTopologies[i].key) + "\n", Generate(m, render).value)
  {
    var t := m.surfaceTopologies;
    var header := SurfaceHeader(t[i].key) + "\n";
    SurfaceItemOk(t[i]);
    assert Within(header, SurfaceItem(t[i]).out) by {
      WithinSelf(header);
      WithinAround(header, List(ElementItems(t[i].elements), "\n").out, header);
    }
    ListWritesOk(SurfaceItems(t), "\n", i);
    SurfacesWithin(m, render, header);
  }

  /** What the surface list writes is within the output. */
  lemma SurfacesWithin<R>(m: AM.Mesh<R>, render: R -> string, s: string)
    requires Generate(m, render).Success?
    requires exists j :: 0 <= j < |m.surfaceTopologies| && Within(s, SurfaceItems(m.surfaceTopologies)[j].out)
                                                        && SurfaceItems(m.surfaceTopologies)[j].ok
    ensures Within(s, Generate(m, render).value)
  {
    var items := SurfaceItems(m.surfaceTopologies);
    var j :| 0 <= j < |m.surfaceTopologies| && Within(s, items[j].out) && items[j].ok;
    var l := List(items, "\n");
    ListWritesOk(items, "\n", j);
    WithinTransitive(s, items[j].out, l.out);
    WithinAround(s, "\n", l.out);
    MeshOk(m, render);
    WithinConcat(s, MeshParts(m, render), 5);
  }

  /** The number of elements in all buckets. */
  function ElementCount(t: seq<AM.Bucket>): nat {
    if |t| == 0 then 0 else |t[0].elements| + ElementCount(t[1..])
  }

  /** Every bucket gets a header line and one row per element, in map order. */
  lemma {:induction false} SurfaceBlocksLength(t: seq<AM.Bucket>)
    ensures |SurfaceBlocks(t)| == |t| + ElementCount(t)
  {
    if |t| > 0 {
      SurfaceBlocksLength(t[1..]);
    }
  }

  /** The number of decimal digits at the end of s. */
  function TrailingDigits(s: string): (d: nat)
    ensures d <= |s|
    ensures AllDigits(s[|s| - d..])
  {
    if |s| == 0 || !IsDigit(s[|s| - 1]) then 0
    else
      var d := 1 + TrailingDigits(s[..|s| - 1]);
      assert s[|s| - d..] == s[..|s| - 1][|s| - d..] + [s[|s| - 1]];
      d
  }

  lemma {:induction false} TrailingDigitsAfter(a: string, b: string)
    requires |a| > 0 && !IsDigit(a[|a| - 1]) && AllDigits(b)
    ensures TrailingDigits(a + b) == |b|
    decreases |b|
  {
    if |b| > 0 {
      assert (a + b)[..|a + b| - 1] == a + b[..|b| - 1];
      TrailingDigitsAfter(a, b[..|b| - 1]);
    } else {
      assert a + b == a;
    }
  }

  /**
   * Reads a surface header back to its key: the trailing digits are the id,
   * and what precedes "Surface_" is the prefix.
   */
  function ReadSurfaceHeader(line: string): Option<AM.TopologyId> {
    var head := "Elements ";
    var tail := " using FluidNodes";
    if |line| < |head| + |tail| || line[..|head|] != head || line[|line| - |tail|..] != tail then None
    else ReadSurfaceKey(line[|head|..|line| - |tail|])
  }

  /** Reads the key part of a header: a prefix, "Surface_" and the id's digits. */
  function ReadSurfaceKey(middle: string): Option<AM.TopologyId> {
    var d := TrailingDigits(middle);
    var rest := middle[..|middle| - d];
    if d == 0 || |rest| < 8 || rest[|rest| - 8..] != "Surface_" then None
    else Some(AM.TopologyId(rest[..|rest| - 8], DigitsValue(middle[|middle| - d..])))
  }

  lemma SurfaceHeaderRoundTrip(k: AM.TopologyId)
    ensures ReadSurfaceHeader(SurfaceHeader(k)) == Some(k)
  {
    var middle := k.prefix + "Surface_" + NatToString(k.id);
    assert SurfaceHeader(k) == "Elements " + middle + " using FluidNodes";
    HeaderMiddle(middle);
    SurfaceKeyRoundTrip(k);
  }

  /** The header frame around a key part is recognised and stripped. */
  lemma HeaderMiddle(middle: string)
    ensures ReadSurfaceHeader("Elements " + middle + " using FluidNodes") == ReadSurfaceKey(middle)
  {
    var line := "Elements " + middle + " using FluidNodes";
    assert |line| >= 26 && line[..9] == "Elements " && line[|line| - 17..] == " using FluidNodes"
           && line[9..|line| - 17] == middle;
  }

  lemma SurfaceKeyRoundTrip(k: AM.TopologyId)
    ensures ReadSurfaceKey(k.prefix + "Surface_" + NatToString(k.id)) == Some(k)
  {
    var n := NatToString(k.id);
    var front := k.prefix + "Surface_";
    var middle := front + n;
    assert middle == k.prefix + "Surface_" + n;
    assert TrailingDigits(middle) == |n| by {
      assert front[|front| - 1] == '_';
      TrailingDigitsAfter(front, n);
    }
    assert middle[..|middle| - |n|] == front && middle[|middle| - |n|..] == n;
    assert front[|front| - 8..] == "Surface_" && front[..|front| - 8] == k.prefix;
    assert DigitsValue(n) == k.id by {
      ParseNatToString(k.id);
    }
  }

  /** Distinct surfaces get distinct headers, the prefix included. */
  lemma SurfaceHeaderInjective(k1: AM.TopologyId, k2: AM.TopologyId)
    requires SurfaceHeader(k1) == SurfaceHeader(k2)
    ensures k1 == k2
  {
    SurfaceHeaderRoundTrip(k1);
    SurfaceHeaderRoundTrip(k2);
  }

  /** A surface block: its header names the bucket's key, and its rows read back to the bucket's elements. */
  lemma SurfaceBlockRoundTrip(b: AM.Bucket)
    requires RowsComplete(b.elements)
    ensures var lines := SurfaceBlock(b);
            && |lines| == |b.elements| + 1
            && ReadSurfaceHeader(lines[0]) == Some(b.key)
            && ReadIndexed("", lines[1..], 1) == Some(ElementRows(b.elements))
            && ReadElementRows(ElementRows(b.elements)) == Some(b.elements)
  {
    SurfaceHeaderRoundTrip(b.key);
    assert SurfaceBlock(b)[1..] == Indexed("", ElementRows(b.elements), 1);
    ElementBlockRoundTrip(b.elements);
  }

  /** The fluid text of a complete mesh, cut at line feeds, gives its lines, when no line holds a line feed. */
  lemma FluidText<R>(m: AM.Mesh<R>, render: R -> string)
    requires Complete(m)
    requires NoLineFeed(FluidLines(m, render))
    ensures Generate(m, render).Success?
    ensures Split(Generate(m, render).value, '\n') == FluidLines(m, render) + [""]
  {
    FluidLinesText(m, render);
    SplitUnlines(FluidLines(m, render));
  }
}
