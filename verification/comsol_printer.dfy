/**
 * The token stream of a COMSOL mesh record, and the parser's properties
 * against it: printing a well-formed record and parsing it back gives the
 * record with trimmed labels, and every parsed record is well formed.
 */
module ComsolPrinter {
  import opened Wrappers
  import CM = ComsolMesh
  import opened ComsolParser

  /** Text printed on the line the parser skips after a selection's label. */
  const SelectionTagText: string := "geom1"

  function NumTokens<R>(xs: seq<nat>): (r: seq<Token<R>>)
    ensures |r| == |xs|
  {
    if |xs| == 0 then [] else [Num(xs[0])] + NumTokens(xs[1..])
  }

  function PointTokens<R>(p: seq<R>): (r: seq<Token<R>>)
    ensures |r| == |p|
  {
    if |p| == 0 then [] else [Real(p[0])] + PointTokens(p[1..])
  }

  function PointsTokens<R>(ps: seq<seq<R>>): seq<Token<R>> {
    if |ps| == 0 then [] else PointTokens(ps[0]) + PointsTokens(ps[1..])
  }

  function ElementsTokens<R>(es: seq<seq<nat>>): seq<Token<R>> {
    if |es| == 0 then [] else NumTokens(es[0]) + ElementsTokens(es[1..])
  }

  function PairsTokens<R>(ps: seq<(nat, string)>): (r: seq<Token<R>>)
    ensures |r| == 2 * |ps|
  {
    if |ps| == 0 then [] else [Num(ps[0].0), Text(ps[0].1)] + PairsTokens(ps[1..])
  }

  function SetTokens<R>(es: CM.ElementSet): seq<Token<R>> {
    [Num(es.elementType.tag), Word(es.elementType.name), Num(CM.NodesPerElement(es)), Num(|es.elements|)]
    + ElementsTokens(es.elements) + [Num(|es.geometricIndices|)] + NumTokens(es.geometricIndices)
  }

  function SetsTokens<R>(sets: seq<CM.ElementSet>): seq<Token<R>> {
    if |sets| == 0 then [] else SetTokens(sets[0]) + SetsTokens(sets[1..])
  }

  function ObjectTokens<R>(o: CM.MeshObject<R>): seq<Token<R>> {
    [Num(0), Num(0), Num(0), Num(o.classId), Word("Mesh"), Num(o.version), Num(o.spaceDimensions),
     Num(o.numMeshPoints), Num(o.index0)]
    + PointsTokens(o.coordinates) + [Num(|o.elementSets|)] + SetsTokens(o.elementSets)
  }

  function SelectionTokens<R>(s: CM.SelectionObject): seq<Token<R>> {
    [Num(0), Num(0), Num(0), Num(s.classId), Word("Selection"), Num(s.version), Num(0), Text(s.name),
     Num(0), Text(SelectionTagText), Num(s.dimSize), Num(|s.entities|)]
    + NumTokens(s.entities)
  }

  function SelectionsTokens<R>(sels: seq<CM.SelectionObject>): seq<Token<R>> {
    if |sels| == 0 then [] else SelectionTokens(sels[0]) + SelectionsTokens(sels[1..])
  }

  function HeadTokens<R>(m: CM.Mesh<R>): seq<Token<R>> {
    [Word(HeaderLiteral), Text(m.created), Num(m.version.0), Num(m.version.1), Num(|m.tags|)]
    + PairsTokens(m.tags) + [Num(|m.types|)] + PairsTokens(m.types)
  }

  /** The tokens of a whole mesh file. */
  function Print<R>(m: CM.Mesh<R>): seq<Token<R>> {
    HeadTokens(m) + ObjectTokens(m.meshObject) + SelectionsTokens(m.selections)
  }

  // ---------------------------------------------------------------------
  // Tokens found at a position.

  ghost predicate At<R>(toks: seq<Token<R>>, pos: nat, xs: seq<Token<R>>) {
    pos + |xs| <= |toks| && forall i :: 0 <= i < |xs| ==> toks[pos + i] == xs[i]
  }

  lemma {:induction false} AtSplit<R>(toks: seq<Token<R>>, pos: nat, a: seq<Token<R>>, b: seq<Token<R>>)
    requires At(toks, pos, a + b)
    ensures At(toks, pos, a) && At(toks, pos + |a|, b)
  {
    forall i | 0 <= i < |a| ensures toks[pos + i] == a[i] {
      assert (a + b)[i] == a[i];
    }
    forall i | 0 <= i < |b| ensures toks[pos + |a| + i] == b[i] {
      assert (a + b)[|a| + i] == b[i];
    }
  }

  lemma {:induction false} AtHead<R>(toks: seq<Token<R>>, pos: nat, xs: seq<Token<R>>)
    requires At(toks, pos, xs) && |xs| > 0
    ensures toks[pos] == xs[0]
  {
    assert toks[pos + 0] == xs[0];
  }

  lemma {:induction false} AtIndex<R>(toks: seq<Token<R>>, pos: nat, xs: seq<Token<R>>, k: nat)
    requires At(toks, pos, xs) && k < |xs|
    ensures toks[pos + k] == xs[k]
  {
  }

  /** A token stream is at position 0 of any stream it starts. */
  lemma {:induction false} AtStart<R>(xs: seq<Token<R>>, rest: seq<Token<R>>)
    ensures At(xs + rest, 0, xs)
  {
    forall i | 0 <= i < |xs| ensures (xs + rest)[0 + i] == xs[i] {
    }
  }

  // ---------------------------------------------------------------------
  // Each reader reads back what was printed.

  lemma {:induction false} ReadNumsAt<R>(toks: seq<Token<R>>, pos: nat, xs: seq<nat>)
    requires At(toks, pos, NumTokens<R>(xs))
    ensures ReadNums(toks, pos, |xs|) == Some(xs)
    decreases |xs|
  {
    if |xs| > 0 {
      AtSplit(toks, pos, [Num(xs[0])], NumTokens<R>(xs[1..]));
      AtHead(toks, pos, NumTokens<R>(xs));
      ReadNumsAt(toks, pos + 1, xs[1..]);
      assert [xs[0]] + xs[1..] == xs;
    }
  }

  lemma {:induction false} ReadPointAt<R>(toks: seq<Token<R>>, pos: nat, p: seq<R>, ofNat: nat -> R)
    requires At(toks, pos, PointTokens(p))
    ensures ReadPoint(toks, pos, |p|, ofNat) == Some(p)
    decreases |p|
  {
    if |p| > 0 {
      AtSplit(toks, pos, [Real(p[0])], PointTokens(p[1..]));
      AtHead(toks, pos, PointTokens(p));
      ReadPointAt(toks, pos + 1, p[1..], ofNat);
      assert [p[0]] + p[1..] == p;
    }
  }

  lemma {:induction false} ReadPointsAt<R>(toks: seq<Token<R>>, pos: nat, ps: seq<seq<R>>, sdim: nat, ofNat: nat -> R)
    requires At(toks, pos, PointsTokens(ps))
    requires forall i :: 0 <= i < |ps| ==> |ps[i]| == sdim
    ensures ReadPoints(toks, pos, |ps|, sdim, ofNat) == Some((ps, pos + |PointsTokens(ps)|))
    decreases |ps|
  {
    if |ps| > 0 {
      AtSplit(toks, pos, PointTokens(ps[0]), PointsTokens(ps[1..]));
      ReadPointAt(toks, pos, ps[0], ofNat);
      ReadPointsAt(toks, pos + sdim, ps[1..], sdim, ofNat);
      assert [ps[0]] + ps[1..] == ps;
    }
  }

  lemma {:induction false} ReadElementsAt<R>(toks: seq<Token<R>>, pos: nat, es: seq<seq<nat>>, npe: nat)
    requires At(toks, pos, ElementsTokens<R>(es))
    requires forall i :: 0 <= i < |es| ==> |es[i]| == npe
    ensures ReadElements(toks, pos, |es|, npe) == Some((es, pos + |ElementsTokens<R>(es)|))
    decreases |es|
  {
    if |es| > 0 {
      var q := pos + |ElementsTokens<R>(es)|;
      ElementsHead(toks, pos, es, npe);
      ReadElementsAt(toks, pos + npe, es[1..], npe);
      ReadElementsStep(toks, pos, es, npe, q);
    }
  }

  /** The first of several printed elements is read back, and the others follow it. */
  lemma {:induction false} ElementsHead<R>(toks: seq<Token<R>>, pos: nat, es: seq<seq<nat>>, npe: nat)
    requires |es| > 0 && |es[0]| == npe && At(toks, pos, ElementsTokens<R>(es))
    ensures ReadNums(toks, pos, npe) == Some(es[0])
    ensures At(toks, pos + npe, ElementsTokens<R>(es[1..]))
    ensures pos + |ElementsTokens<R>(es)| == pos + npe + |ElementsTokens<R>(es[1..])|
  {
    AtSplit(toks, pos, NumTokens<R>(es[0]), ElementsTokens<R>(es[1..]));
    ReadNumsAt(toks, pos, es[0]);
  }

  /** One element read in front of the rest reads as the whole list. */
  lemma {:induction false} ReadElementsStep<R>(toks: seq<Token<R>>, pos: nat, es: seq<seq<nat>>, npe: nat, q: nat)
    requires |es| > 0 && pos + npe <= |toks| && ReadNums(toks, pos, npe) == Some(es[0])
    requires ReadElements(toks, pos + npe, |es| - 1, npe) == Some((es[1..], q))
    ensures ReadElements(toks, pos, |es|, npe) == Some((es, q))
  {
    var rest := es[1..];
    assert [es[0]] + rest == es && |rest| + 1 == |es|;
  }

  lemma {:induction false} ReadPairsAt<R>(toks: seq<Token<R>>, pos: nat, ps: seq<(nat, string)>)
    requires At(toks, pos, PairsTokens<R>(ps))
    ensures ReadPairs(toks, pos, |ps|) == Parsed(ps, pos + 2 * |ps|)
    decreases |ps|
  {
    if |ps| > 0 {
      AtSplit(toks, pos, [Num(ps[0].0), Text(ps[0].1)], PairsTokens<R>(ps[1..]));
      AtIndex(toks, pos, PairsTokens<R>(ps), 0);
      AtIndex(toks, pos, PairsTokens<R>(ps), 1);
      ReadPairsAt(toks, pos + 2, ps[1..]);
      assert [ps[0]] + ps[1..] == ps;
    }
  }

  lemma {:induction false} ParseTableAt<R>(toks: seq<Token<R>>, pos: nat, ps: seq<(nat, string)>, rule: string)
    requires At(toks, pos, [Num(|ps|)] + PairsTokens<R>(ps))
    ensures ParseTable(toks, pos, rule) == Success((ps, pos + 1 + 2 * |ps|))
  {
    AtSplit(toks, pos, [Num(|ps|)], PairsTokens<R>(ps));
    AtHead(toks, pos, [Num(|ps|)] + PairsTokens<R>(ps));
    ReadPairsAt(toks, pos + 1, ps);
  }

  /** The four parts of a printed element set, at their positions. */
  lemma {:induction false} SetPartsAt<R>(toks: seq<Token<R>>, pos: nat, es: CM.ElementSet)
    requires At(toks, pos, SetTokens<R>(es))
    ensures var head: seq<Token<R>> := [Num(es.elementType.tag), Word(es.elementType.name),
                                        Num(CM.NodesPerElement(es)), Num(|es.elements|)];
            var p := pos + 4 + |ElementsTokens<R>(es.elements)|;
            && At(toks, pos, head)
            && At(toks, pos + 4, ElementsTokens<R>(es.elements))
            && At(toks, p, [Num(|es.geometricIndices|)])
            && At(toks, p + 1, NumTokens<R>(es.geometricIndices))
            && |SetTokens<R>(es)| == p - pos + 1 + |es.geometricIndices|
  {
    var head: seq<Token<R>> := [Num(es.elementType.tag), Word(es.elementType.name),
                                Num(CM.NodesPerElement(es)), Num(|es.elements|)];
    var body := ElementsTokens<R>(es.elements);
    var count: seq<Token<R>> := [Num(|es.geometricIndices|)];
    var geom := NumTokens<R>(es.geometricIndices);
    assert SetTokens<R>(es) == head + body + count + geom;
    AtSplit(toks, pos, head + body + count, geom);
    AtSplit(toks, pos, head + body, count);
    AtSplit(toks, pos, head, body);
  }

  /** What the element-set rule reads from a printed set, position by position. */
  lemma {:induction false} SetFactsAt<R>(toks: seq<Token<R>>, pos: nat, es: CM.ElementSet)
    requires CM.SetWellFormed(es)
    requires At(toks, pos, SetTokens<R>(es))
    ensures var count := |es.elements|;
            var p := pos + 4 + |ElementsTokens<R>(es.elements)|;
            && NumAt(toks, pos) == Some(es.elementType.tag)
            && pos + 1 < |toks| && toks[pos + 1] == Word(es.elementType.name)
            && NumAt(toks, pos + 2) == Some(CM.NodesPerElement(es)) && NumAt(toks, pos + 3) == Some(count)
            && pos + 4 <= |toks| && ReadElements(toks, pos + 4, count, CM.NodesPerElement(es)) == Some((es.elements, p))
            && NumAt(toks, p) == Some(count)
            && p + 1 <= |toks| && ReadNums(toks, p + 1, count) == Some(es.geometricIndices)
            && p + 1 + count == pos + |SetTokens<R>(es)|
  {
    var npe := CM.NodesPerElement(es);
    var count := |es.elements|;
    var head: seq<Token<R>> := [Num(es.elementType.tag), Word(es.elementType.name), Num(npe), Num(count)];
    var p := pos + 4 + |ElementsTokens<R>(es.elements)|;
    SetPartsAt(toks, pos, es);
    assert NumAt(toks, pos) == Some(es.elementType.tag) && pos + 1 < |toks| && toks[pos + 1] == Word(es.elementType.name)
           && NumAt(toks, pos + 2) == Some(npe) && NumAt(toks, pos + 3) == Some(count) by {
      AtIndex(toks, pos, head, 0);
      AtIndex(toks, pos, head, 1);
      AtIndex(toks, pos, head, 2);
      AtIndex(toks, pos, head, 3);
    }
    assert pos + 4 <= |toks| && ReadElements(toks, pos + 4, count, npe) == Some((es.elements, p)) by {
      ReadElementsAt(toks, pos + 4, es.elements, npe);
    }
    assert NumAt(toks, p) == Some(count) by {
      AtHead(toks, p, [Num(|es.geometricIndices|)]);
    }
    ReadNumsAt(toks, p + 1, es.geometricIndices);
  }

  lemma {:induction false} ParseElementSetAt<R>(toks: seq<Token<R>>, pos: nat, es: CM.ElementSet)
    requires CM.SetWellFormed(es)
    requires At(toks, pos, SetTokens<R>(es))
    ensures ParseElementSet(toks, pos) == Parsed(es, pos + |SetTokens<R>(es)|)
  {
    SetFactsAt(toks, pos, es);
    ParseElementSetOf(toks, pos, es.elementType.tag, es.elementType.name, CM.NodesPerElement(es), |es.elements|,
                      es.elements, pos + 4 + |ElementsTokens<R>(es.elements)|, es.geometricIndices);
  }

  /** The element-set rule succeeds when each of its components does, in order. */
  lemma {:induction false} ParseElementSetOf<R>(toks: seq<Token<R>>, pos: nat, tag: nat, name: string, npe: nat, count: nat,
                                                elements: seq<seq<nat>>, p: nat, geom: seq<nat>)
    requires NumAt(toks, pos) == Some(tag)
    requires pos + 1 < |toks| && toks[pos + 1] == Word(name) && name in CM.ShapeKeywords
    requires NumAt(toks, pos + 2) == Some(npe) && NumAt(toks, pos + 3) == Some(count)
    requires pos + 4 <= |toks| && ReadElements(toks, pos + 4, count, npe) == Some((elements, p))
    requires NumAt(toks, p) == Some(count)
    requires p + 1 <= |toks| && ReadNums(toks, p + 1, count) == Some(geom)
    ensures ParseElementSet(toks, pos) == Parsed(CM.ElementSet(CM.ElementType(tag, name), elements, geom), p + 1 + count)
  {
  }

  lemma {:induction false} ReadElementSetsAt<R>(toks: seq<Token<R>>, pos: nat, sets: seq<CM.ElementSet>)
    requires forall i :: 0 <= i < |sets| ==> CM.SetWellFormed(sets[i])
    requires At(toks, pos, SetsTokens<R>(sets))
    ensures ReadElementSets(toks, pos, |sets|) == Parsed(sets, pos + |SetsTokens<R>(sets)|)
  {
    ReadElementSetsThrough(toks, pos, sets, pos + |SetsTokens<R>(sets)|);
  }

  /** Printed element sets read back up to the given end q of their tokens. */
  lemma {:induction false} ReadElementSetsThrough<R>(toks: seq<Token<R>>, pos: nat, sets: seq<CM.ElementSet>, q: nat)
    requires forall i :: 0 <= i < |sets| ==> CM.SetWellFormed(sets[i])
    requires At(toks, pos, SetsTokens<R>(sets)) && q == pos + |SetsTokens<R>(sets)|
    ensures ReadElementSets(toks, pos, |sets|) == Parsed(sets, q)
    decreases |sets|
  {
    if |sets| > 0 {
      var p := pos + |SetTokens<R>(sets[0])|;
      SetsHead(toks, pos, sets);
      ReadElementSetsThrough(toks, p, sets[1..], q);
      SetsThroughStep(toks, pos, sets, p, q);
    }
  }

  /** The first of several printed element sets is read back, and the others follow it. */
  lemma {:induction false} SetsHead<R>(toks: seq<Token<R>>, pos: nat, sets: seq<CM.ElementSet>)
    requires |sets| > 0 && CM.SetWellFormed(sets[0]) && At(toks, pos, SetsTokens<R>(sets))
    ensures var p := pos + |SetTokens<R>(sets[0])|;
            && ParseElementSet(toks, pos) == Parsed(sets[0], p)
            && At(toks, p, SetsTokens<R>(sets[1..]))
            && pos + |SetsTokens<R>(sets)| == p + |SetsTokens<R>(sets[1..])|
  {
    var first := SetTokens<R>(sets[0]);
    var rest := SetsTokens<R>(sets[1..]);
    assert SetsTokens<R>(sets) == first + rest;
    AtSplit(toks, pos, first, rest);
    ParseElementSetAt(toks, pos, sets[0]);
  }

  /** One parsed element set in front of the rest reads as the whole list. */
  lemma {:induction false} SetsThroughStep<R>(toks: seq<Token<R>>, pos: nat, sets: seq<CM.ElementSet>, p: nat, q: nat)
    requires |sets| > 0 && ParseElementSet(toks, pos) == Parsed(sets[0], p)
    requires ReadElementSets(toks, p, |sets| - 1) == Parsed(sets[1..], q)
    ensures ReadElementSets(toks, pos, |sets|) == Parsed(sets, q)
  {
    var rest := sets[1..];
    assert [sets[0]] + rest == sets && |rest| + 1 == |sets|;
    ReadElementSetsStep(toks, pos, sets[0], p, rest, q);
  }

  lemma {:induction false} ReadElementSetsStep<R>(toks: seq<Token<R>>, pos: nat, es: CM.ElementSet, p: nat,
                                                  rest: seq<CM.ElementSet>, next: nat)
    requires ParseElementSet(toks, pos) == Parsed(es, p)
    requires ReadElementSets(toks, p, |rest|) == Parsed(rest, next)
    ensures ReadElementSets(toks, pos, |rest| + 1) == Parsed([es] + rest, next)
  {
  }

  lemma {:induction false} ParseElementSetsAt<R>(toks: seq<Token<R>>, pos: nat, sets: seq<CM.ElementSet>)
    requires forall i :: 0 <= i < |sets| ==> CM.SetWellFormed(sets[i])
    requires At(toks, pos, [Num(|sets|)] + SetsTokens<R>(sets))
    ensures ParseElementSets(toks, pos) == Parsed(sets, pos + 1 + |SetsTokens<R>(sets)|)
  {
    AtSplit(toks, pos, [Num(|sets|)], SetsTokens<R>(sets));
    AtHead(toks, pos, [Num(|sets|)]);
    ReadElementSetsAt(toks, pos + 1, sets);
  }

  /** The mesh-object rule succeeds when each of its components does, in order. */
  lemma {:induction false} ParseMeshObjectOf<R>(toks: seq<Token<R>>, pos: nat, ofNat: nat -> R, classId: nat, version: nat,
                                                sdim: nat, numPoints: nat, coords: seq<seq<R>>, p: nat,
                                                sets: seq<CM.ElementSet>, next: nat)
    requires NumAt(toks, pos).Some? && NumAt(toks, pos + 1).Some? && NumAt(toks, pos + 2).Some?
    requires NumAt(toks, pos + 3) == Some(classId) && WordAt(toks, pos + 4, "Mesh")
    requires NumAt(toks, pos + 5) == Some(version) && NumAt(toks, pos + 6) == Some(sdim)
    requires NumAt(toks, pos + 7) == Some(numPoints) && NumAt(toks, pos + 8) == Some(0)
    requires ReadPoints(toks, pos + 9, numPoints, sdim, ofNat) == Some((coords, p))
    requires ParseElementSets(toks, p) == Parsed(sets, next)
    ensures ParseMeshObject(toks, pos, ofNat) == Parsed(CM.MeshObject(classId, version, sdim, numPoints, 0, coords, sets), next)
  {
  }

  /** The printed header numbers of a mesh object sit at the positions the rule reads them from. */
  lemma {:induction false} ObjectHeadAt<R>(toks: seq<Token<R>>, pos: nat, o: CM.MeshObject<R>)
    requires At(toks, pos, ObjectTokens(o))
    ensures NumAt(toks, pos).Some? && NumAt(toks, pos + 1).Some? && NumAt(toks, pos + 2).Some?
    ensures NumAt(toks, pos + 3) == Some(o.classId) && WordAt(toks, pos + 4, "Mesh")
    ensures NumAt(toks, pos + 5) == Some(o.version) && NumAt(toks, pos + 6) == Some(o.spaceDimensions)
    ensures NumAt(toks, pos + 7) == Some(o.numMeshPoints) && NumAt(toks, pos + 8) == Some(o.index0)
    ensures At(toks, pos + 9, PointsTokens(o.coordinates))
    ensures At(toks, pos + 9 + |PointsTokens(o.coordinates)|, [Num(|o.elementSets|)] + SetsTokens(o.elementSets))
    ensures |ObjectTokens(o)| == 9 + |PointsTokens(o.coordinates)| + 1 + |SetsTokens<R>(o.elementSets)|
  {
    var head: seq<Token<R>> := [Num(0), Num(0), Num(0), Num(o.classId), Word("Mesh"), Num(o.version),
                                Num(o.spaceDimensions), Num(o.numMeshPoints), Num(o.index0)];
    var pts := PointsTokens(o.coordinates);
    var tail: seq<Token<R>> := [Num(|o.elementSets|)] + SetsTokens(o.elementSets);
    assert ObjectTokens(o) == head + pts + tail;
    AtThree(toks, pos, head, pts, tail);
    ObjectHeadFields(toks, pos, o);
  }

  /** The nine header tokens of a mesh object, field by field. */
  lemma {:induction false} ObjectHeadFields<R>(toks: seq<Token<R>>, pos: nat, o: CM.MeshObject<R>)
    requires At(toks, pos, [Num(0), Num(0), Num(0), Num(o.classId), Word("Mesh"), Num(o.version),
                            Num(o.spaceDimensions), Num(o.numMeshPoints), Num(o.index0)])
    ensures NumAt(toks, pos).Some? && NumAt(toks, pos + 1).Some? && NumAt(toks, pos + 2).Some?
    ensures NumAt(toks, pos + 3) == Some(o.classId) && WordAt(toks, pos + 4, "Mesh")
    ensures NumAt(toks, pos + 5) == Some(o.version) && NumAt(toks, pos + 6) == Some(o.spaceDimensions)
    ensures NumAt(toks, pos + 7) == Some(o.numMeshPoints) && NumAt(toks, pos + 8) == Some(o.index0)
  {
    var head: seq<Token<R>> := [Num(0), Num(0), Num(0), Num(o.classId), Word("Mesh"), Num(o.version),
                                Num(o.spaceDimensions), Num(o.numMeshPoints), Num(o.index0)];
    AtIndex(toks, pos, head, 0);
    AtIndex(toks, pos, head, 1);
    AtIndex(toks, pos, head, 2);
    AtIndex(toks, pos, head, 3);
    AtIndex(toks, pos, head, 4);
    AtIndex(toks, pos, head, 5);
    AtIndex(toks, pos, head, 6);
    AtIndex(toks, pos, head, 7);
    AtIndex(toks, pos, head, 8);
  }

  /** Three consecutive parts of a stream, each at its offset. */
  lemma {:induction false} AtThree<R>(toks: seq<Token<R>>, pos: nat, a: seq<Token<R>>, b: seq<Token<R>>, c: seq<Token<R>>)
    requires At(toks, pos, a + b + c)
    ensures At(toks, pos, a) && At(toks, pos + |a|, b) && At(toks, pos + |a| + |b|, c)
  {
    AtSplit(toks, pos, a + b, c);
    AtSplit(toks, pos, a, b);
  }

  lemma {:induction false} ParseMeshObjectAt<R>(toks: seq<Token<R>>, pos: nat, o: CM.MeshObject<R>, ofNat: nat -> R)
    requires CM.ObjectWellFormed(o)
    requires At(toks, pos, ObjectTokens(o))
    ensures ParseMeshObject(toks, pos, ofNat) == Parsed(o, pos + |ObjectTokens(o)|)
  {
    ObjectHeadAt(toks, pos, o);
    var p := pos + 9 + |PointsTokens(o.coordinates)|;
    var next := p + 1 + |SetsTokens<R>(o.elementSets)|;
    assert ReadPoints(toks, pos + 9, o.numMeshPoints, o.spaceDimensions, ofNat) == Some((o.coordinates, p)) by {
      ReadPointsAt(toks, pos + 9, o.coordinates, o.spaceDimensions, ofNat);
    }
    assert ParseElementSets(toks, p) == Parsed(o.elementSets, next) by {
      ParseElementSetsAt(toks, p, o.elementSets);
    }
    ParseMeshObjectOf(toks, pos, ofNat, o.classId, o.version, o.spaceDimensions, o.numMeshPoints, o.coordinates, p,
                      o.elementSets, next);
  }

  /** The selection rule succeeds when each of its components does, in order. */
  lemma {:induction false} ParseSelectionOf<R>(toks: seq<Token<R>>, pos: nat, classId: nat, version: nat, name: string,
                                               dimSize: nat, count: nat, entities: seq<nat>)
    requires NumAt(toks, pos).Some? && NumAt(toks, pos + 1).Some? && NumAt(toks, pos + 2).Some?
    requires NumAt(toks, pos + 3) == Some(classId) && WordAt(toks, pos + 4, "Selection")
    requires NumAt(toks, pos + 5) == Some(version) && NumAt(toks, pos + 6).Some?
    requires TextAt(toks, pos + 7) == Some(name) && NumAt(toks, pos + 8).Some? && TextAt(toks, pos + 9).Some?
    requires NumAt(toks, pos + 10) == Some(dimSize) && NumAt(toks, pos + 11) == Some(count)
    requires ReadNums(toks, pos + 12, count) == Some(entities)
    ensures ParseSelection(toks, pos) == Parsed(CM.SelectionObject(classId, version, name, dimSize, entities), pos + 12 + count)
  {
  }

  lemma {:induction false} ParseSelectionAt<R>(toks: seq<Token<R>>, pos: nat, s: CM.SelectionObject)
    requires At(toks, pos, SelectionTokens<R>(s))
    ensures ParseSelection(toks, pos) == Parsed(s, pos + |SelectionTokens<R>(s)|)
  {
    var head: seq<Token<R>> := [Num(0), Num(0), Num(0), Num(s.classId), Word("Selection"), Num(s.version),
                                Num(0), Text(s.name), Num(0), Text(SelectionTagText), Num(s.dimSize),
                                Num(|s.entities|)];
    assert SelectionTokens<R>(s) == head + NumTokens(s.entities);
    AtSplit(toks, pos, head, NumTokens(s.entities));
    AtIndex(toks, pos, head, 0);
    AtIndex(toks, pos, head, 1);
    AtIndex(toks, pos, head, 2);
    AtIndex(toks, pos, head, 3);
    AtIndex(toks, pos, head, 4);
    AtIndex(toks, pos, head, 5);
    AtIndex(toks, pos, head, 6);
    AtIndex(toks, pos, head, 7);
    AtIndex(toks, pos, head, 8);
    AtIndex(toks, pos, head, 9);
    AtIndex(toks, pos, head, 10);
    AtIndex(toks, pos, head, 11);
    ReadNumsAt(toks, pos + 12, s.entities);
    ParseSelectionOf(toks, pos, s.classId, s.version, s.name, s.dimSize, |s.entities|, s.entities);
  }

  /**
   * The list read from one position is the selections sels followed by the
   * list read from a later position, or that later list's failure.
   */
  ghost predicate Chains(x: Result<(seq<CM.SelectionObject>, nat), Fail>, after: Result<(seq<CM.SelectionObject>, nat), Fail>,
                         sels: seq<CM.SelectionObject>) {
    && (after.Failure? ==> x == after)
    && (after.Success? ==> x == Success((sels + after.value.0, after.value.1)))
  }

  /**
   * Printed selections are read back, and the list then goes on exactly as
   * it would from the position after them.
   */
  lemma {:induction false} ParseSelectionsThrough<R>(toks: seq<Token<R>>, pos: nat, sels: seq<CM.SelectionObject>, q: nat)
    requires At(toks, pos, SelectionsTokens<R>(sels)) && q == pos + |SelectionsTokens<R>(sels)|
    ensures Chains(ParseSelections(toks, pos), ParseSelections(toks, q), sels)
    decreases |sels|
  {
    if |sels| == 0 {
      var after := ParseSelections(toks, q);
      if after.Success? {
        assert sels + after.value.0 == after.value.0;
      }
    } else {
      var p := pos + |SelectionTokens<R>(sels[0])|;
      SelectionsHead(toks, pos, sels);
      ParseSelectionsThrough(toks, p, sels[1..], q);
      ThroughStep(toks, pos, sels, p, q);
    }
  }

  /** The first of several printed selections is read back, and the others follow it. */
  lemma {:induction false} SelectionsHead<R>(toks: seq<Token<R>>, pos: nat, sels: seq<CM.SelectionObject>)
    requires |sels| > 0 && At(toks, pos, SelectionsTokens<R>(sels))
    ensures var p := pos + |SelectionTokens<R>(sels[0])|;
            && ParseSelection(toks, pos) == Parsed(sels[0], p)
            && At(toks, p, SelectionsTokens<R>(sels[1..]))
            && pos + |SelectionsTokens<R>(sels)| == p + |SelectionsTokens<R>(sels[1..])|
  {
    var first := SelectionTokens<R>(sels[0]);
    var rest := SelectionsTokens<R>(sels[1..]);
    assert SelectionsTokens<R>(sels) == first + rest;
    AtSplit(toks, pos, first, rest);
    ParseSelectionAt(toks, pos, sels[0]);
  }

  /** One parsed selection in front of a chain extends the chain by that selection. */
  lemma {:induction false} ThroughStep<R>(toks: seq<Token<R>>, pos: nat, sels: seq<CM.SelectionObject>, p: nat, q: nat)
    requires |sels| > 0 && ParseSelection(toks, pos) == Parsed(sels[0], p) && p <= q <= |toks|
    requires Chains(ParseSelections(toks, p), ParseSelections(toks, q), sels[1..])
    ensures Chains(ParseSelections(toks, pos), ParseSelections(toks, q), sels)
  {
    ParseSelectionsStep(toks, pos, sels[0], p);
    ChainsCompose(ParseSelections(toks, pos), ParseSelections(toks, p), ParseSelections(toks, q), [sels[0]], sels[1..]);
    assert [sels[0]] + sels[1..] == sels;
  }

  /** Chains compose. */
  lemma {:induction false} ChainsCompose(x0: Result<(seq<CM.SelectionObject>, nat), Fail>,
                                         x1: Result<(seq<CM.SelectionObject>, nat), Fail>,
                                         after: Result<(seq<CM.SelectionObject>, nat), Fail>,
                                         first: seq<CM.SelectionObject>, rest: seq<CM.SelectionObject>)
    requires Chains(x0, x1, first) && Chains(x1, after, rest)
    ensures Chains(x0, after, first + rest)
  {
    if after.Success? {
      assert first + (rest + after.value.0) == (first + rest) + after.value.0;
    }
  }

  lemma {:induction false} ParseSelectionsStep<R>(toks: seq<Token<R>>, pos: nat, s: CM.SelectionObject, p: nat)
    requires ParseSelection(toks, pos) == Parsed(s, p)
    ensures Chains(ParseSelections(toks, pos), ParseSelections(toks, p), [s])
  {
  }

  /** Printed selections at the end of the input are read back, all of them. */
  lemma {:induction false} ParseSelectionsAt<R>(toks: seq<Token<R>>, pos: nat, sels: seq<CM.SelectionObject>)
    requires At(toks, pos, SelectionsTokens<R>(sels)) && pos + |SelectionsTokens<R>(sels)| == |toks|
    ensures ParseSelections(toks, pos) == Success((sels, |toks|))
  {
    ParseSelectionsThrough(toks, pos, sels, pos + |SelectionsTokens<R>(sels)|);
    assert ParseSelection(toks, |toks|) == Soft;
    assert sels + [] == sels;
  }

  /** The start rule, once the header and both tables are read, in terms of the rest of the file. */
  lemma {:induction false} ParseRawSteps<R>(toks: seq<Token<R>>, ofNat: nat -> R, created: string, v0: nat, v1: nat,
                                            tags: seq<(nat, string)>, p1: nat, types: seq<(nat, string)>, p2: nat)
    requires WordAt(toks, 0, HeaderLiteral) && TextAt(toks, 1) == Some(created)
    requires NumAt(toks, 2) == Some(v0) && NumAt(toks, 3) == Some(v1)
    requires ParseTable(toks, 4, TagsRule) == Success((tags, p1))
    requires ParseTable(toks, p1, TypesRule) == Success((types, p2))
    ensures var o := ParseMeshObject(toks, p2, ofNat);
            && (o.Hard? ==> ParseRaw(toks, ofNat) == Failure(Reported(o.fail)))
            && (o.Parsed? ==>
                  var sels := ParseSelections(toks, o.next);
                  && (sels.Failure? ==> ParseRaw(toks, ofNat) == Failure(Reported(sels.error)))
                  && (sels.Success? && sels.value.1 != |toks| ==> ParseRaw(toks, ofNat) == Failure(Unconsumed(sels.value.1)))
                  && (sels.Success? && sels.value.1 == |toks| ==>
                        ParseRaw(toks, ofNat) == Success(CM.Mesh(created, (v0, v1), tags, types, o.value, sels.value.0))))
  {
  }

  /** Where the header tokens and the parts of a mesh sit in a token stream. */
  ghost predicate LaidOut<R>(toks: seq<Token<R>>, m: CM.Mesh<R>) {
    var p1 := 4 + 1 + 2 * |m.tags|;
    var p2 := p1 + 1 + 2 * |m.types|;
    var p3 := p2 + |ObjectTokens(m.meshObject)|;
    && WordAt(toks, 0, HeaderLiteral) && TextAt(toks, 1) == Some(m.created)
    && NumAt(toks, 2) == Some(m.version.0) && NumAt(toks, 3) == Some(m.version.1)
    && At(toks, 4, [Num(|m.tags|)] + PairsTokens(m.tags))
    && At(toks, p1, [Num(|m.types|)] + PairsTokens(m.types))
    && At(toks, p2, ObjectTokens(m.meshObject))
    && At(toks, p3, SelectionsTokens(m.selections))
  }

  /** The end of the printed parts of a mesh. */
  function PrintedEnd<R>(m: CM.Mesh<R>): nat {
    4 + 1 + 2 * |m.tags| + 1 + 2 * |m.types| + |ObjectTokens(m.meshObject)| + |SelectionsTokens<R>(m.selections)|
  }

  /** A printed mesh is laid out in any token stream that starts with it. */
  lemma {:induction false} PrintLayout<R>(m: CM.Mesh<R>, rest: seq<Token<R>>)
    ensures LaidOut(Print(m) + rest, m) && |Print(m)| == PrintedEnd(m)
  {
    var pre: seq<Token<R>> := [Word(HeaderLiteral), Text(m.created), Num(m.version.0), Num(m.version.1)];
    var tagsToks: seq<Token<R>> := [Num(|m.tags|)] + PairsTokens(m.tags);
    var typesToks: seq<Token<R>> := [Num(|m.types|)] + PairsTokens(m.types);
    assert Print(m) == pre + tagsToks + typesToks + ObjectTokens(m.meshObject) + SelectionsTokens<R>(m.selections);
    AtStart(Print(m), rest);
    PartsLaidOut(Print(m) + rest, m, pre, tagsToks, typesToks);
  }

  /** The five parts of a stream that starts with them, at their positions. */
  lemma {:induction false} PartsLaidOut<R>(toks: seq<Token<R>>, m: CM.Mesh<R>, pre: seq<Token<R>>,
                                           tagsToks: seq<Token<R>>, typesToks: seq<Token<R>>)
    requires pre == [Word(HeaderLiteral), Text(m.created), Num(m.version.0), Num(m.version.1)]
    requires tagsToks == [Num(|m.tags|)] + PairsTokens(m.tags)
    requires typesToks == [Num(|m.types|)] + PairsTokens(m.types)
    requires At(toks, 0, pre + tagsToks + typesToks + ObjectTokens(m.meshObject) + SelectionsTokens<R>(m.selections))
    ensures LaidOut(toks, m)
  {
    var obj := ObjectTokens(m.meshObject);
    var sels := SelectionsTokens<R>(m.selections);
    AtFive(toks, pre, tagsToks, typesToks, obj, sels);
    assert WordAt(toks, 0, HeaderLiteral) && TextAt(toks, 1) == Some(m.created)
           && NumAt(toks, 2) == Some(m.version.0) && NumAt(toks, 3) == Some(m.version.1) by {
      AtIndex(toks, 0, pre, 0);
      AtIndex(toks, 0, pre, 1);
      AtIndex(toks, 0, pre, 2);
      AtIndex(toks, 0, pre, 3);
    }
  }

  /** Five consecutive parts of a stream, each at its offset. */
  lemma {:induction false} AtFive<R>(toks: seq<Token<R>>, a: seq<Token<R>>, b: seq<Token<R>>, c: seq<Token<R>>,
                                     d: seq<Token<R>>, e: seq<Token<R>>)
    requires At(toks, 0, a + b + c + d + e)
    ensures At(toks, 0, a) && At(toks, |a|, b) && At(toks, |a| + |b|, c)
    ensures At(toks, |a| + |b| + |c|, d) && At(toks, |a| + |b| + |c| + |d|, e)
  {
    AtSplit(toks, 0, a + b + c + d, e);
    AtSplit(toks, 0, a + b + c, d);
    AtSplit(toks, 0, a + b, c);
    AtSplit(toks, 0, a, b);
  }

  /** The header and both tables of a laid-out mesh parse back. */
  lemma {:induction false} PrintedTables<R>(toks: seq<Token<R>>, m: CM.Mesh<R>)
    requires LaidOut(toks, m)
    ensures var p1 := 4 + 1 + 2 * |m.tags|;
            var p2 := p1 + 1 + 2 * |m.types|;
            && ParseTable(toks, 4, TagsRule) == Success((m.tags, p1))
            && ParseTable(toks, p1, TypesRule) == Success((m.types, p2))
  {
    ParseTableAt(toks, 4, m.tags, TagsRule);
    ParseTableAt(toks, 4 + 1 + 2 * |m.tags|, m.types, TypesRule);
  }

  /** The mesh object of a laid-out well-formed mesh reads back where it was printed. */
  lemma {:induction false} ObjectLaidOut<R>(toks: seq<Token<R>>, m: CM.Mesh<R>, ofNat: nat -> R, p2: nat, p3: nat)
    requires CM.WellFormed(m) && LaidOut(toks, m)
    requires p2 == 4 + 1 + 2 * |m.tags| + 1 + 2 * |m.types| && p3 == p2 + |ObjectTokens(m.meshObject)|
    ensures ParseMeshObject(toks, p2, ofNat) == Parsed(m.meshObject, p3)
  {
    ParseMeshObjectAt(toks, p2, m.meshObject, ofNat);
  }

  /** The selections of a laid-out mesh sit after its object and end at the printed end. */
  lemma {:induction false} LaidOutSelections<R>(toks: seq<Token<R>>, m: CM.Mesh<R>, p3: nat, n: nat)
    requires LaidOut(toks, m)
    requires p3 == 4 + 1 + 2 * |m.tags| + 1 + 2 * |m.types| + |ObjectTokens(m.meshObject)| && n == PrintedEnd(m)
    ensures At(toks, p3, SelectionsTokens(m.selections)) && n == p3 + |SelectionsTokens<R>(m.selections)|
  {
  }

  /** A laid-out well-formed mesh that fills the stream parses back, labels trimmed. */
  lemma {:induction false} ParseLaidOut<R>(toks: seq<Token<R>>, m: CM.Mesh<R>, ofNat: nat -> R)
    requires CM.WellFormed(m) && LaidOut(toks, m) && |toks| == PrintedEnd(m)
    ensures Parse(toks, ofNat) == Success(TrimLabels(m))
  {
    var p1 := 4 + 1 + 2 * |m.tags|;
    var p2 := p1 + 1 + 2 * |m.types|;
    var p3 := p2 + |ObjectTokens(m.meshObject)|;
    PrintedTables(toks, m);
    ObjectLaidOut(toks, m, ofNat, p2, p3);
    assert ParseSelections(toks, p3) == Success((m.selections, |toks|)) by {
      LaidOutSelections(toks, m, p3, |toks|);
      ParseSelectionsAt(toks, p3, m.selections);
    }
    ParseRawSteps(toks, ofNat, m.created, m.version.0, m.version.1, m.tags, p1, m.types, p2);
  }

  /** Printing a well-formed mesh and parsing it back gives the mesh, labels trimmed. */
  lemma {:induction false} ParsePrint<R>(m: CM.Mesh<R>, ofNat: nat -> R)
    requires CM.WellFormed(m)
    ensures Parse(Print(m), ofNat) == Success(TrimLabels(m))
  {
    PrintLayout(m, []);
    assert Print(m) + [] == Print(m);
    ParseLaidOut(Print(m), m, ofNat);
  }

  /** After printed selections, one more token either breaks off a new selection or ends the list. */
  lemma {:induction false} SelectionsThenToken<R>(toks: seq<Token<R>>, pos: nat, sels: seq<CM.SelectionObject>, n: nat)
    requires At(toks, pos, SelectionsTokens<R>(sels)) && n == pos + |SelectionsTokens<R>(sels)| && |toks| == n + 1
    ensures ParseSelections(toks, pos) == if toks[n].Num? then Failure(Fail(n + 1, Integer)) else Success((sels, n))
  {
    ParseSelectionsThrough(toks, pos, sels, n);
    LastTokenSelections(toks);
    var after := ParseSelections(toks, n);
    if toks[n].Num? {
      assert after == Failure(Fail(n + 1, Integer));
    } else {
      assert after == Success(([], n));
      assert sels + after.value.0 == sels;
    }
  }

  /** At the last token, the selection list either breaks off or is empty. */
  lemma {:induction false} LastTokenSelections<R>(toks: seq<Token<R>>)
    requires |toks| > 0
    ensures var n := |toks| - 1;
            ParseSelections(toks, n) == if toks[n].Num? then Failure(Fail(n + 1, Integer)) else Success(([], n))
  {
  }

  /** A laid-out well-formed mesh followed by one token t fails to parse. */
  lemma {:induction false} TrailingLaidOut<R>(toks: seq<Token<R>>, m: CM.Mesh<R>, t: Token<R>, ofNat: nat -> R, n: nat)
    requires CM.WellFormed(m) && LaidOut(toks, m) && n == PrintedEnd(m) && |toks| == n + 1 && toks[n] == t
    ensures Parse(toks, ofNat) == Failure(if t.Num? then Reported(Fail(n + 1, Integer)) else Unconsumed(n))
  {
    var p1 := 4 + 1 + 2 * |m.tags|;
    var p2 := p1 + 1 + 2 * |m.types|;
    var p3 := p2 + |ObjectTokens(m.meshObject)|;
    PrintedTables(toks, m);
    ObjectLaidOut(toks, m, ofNat, p2, p3);
    LaidOutSelections(toks, m, p3, n);
    TrailingFinish(toks, ofNat, m, t, p1, p2, p3, n);
  }

  /** The parts before the selections read back; printed selections and then t follow. */
  lemma {:induction false} TrailingFinish<R>(toks: seq<Token<R>>, ofNat: nat -> R, m: CM.Mesh<R>, t: Token<R>,
                                             p1: nat, p2: nat, p3: nat, n: nat)
    requires WordAt(toks, 0, HeaderLiteral) && TextAt(toks, 1) == Some(m.created)
    requires NumAt(toks, 2) == Some(m.version.0) && NumAt(toks, 3) == Some(m.version.1)
    requires ParseTable(toks, 4, TagsRule) == Success((m.tags, p1))
    requires ParseTable(toks, p1, TypesRule) == Success((m.types, p2))
    requires ParseMeshObject(toks, p2, ofNat) == Parsed(m.meshObject, p3)
    requires At(toks, p3, SelectionsTokens<R>(m.selections)) && n == p3 + |SelectionsTokens<R>(m.selections)|
    requires |toks| == n + 1 && toks[n] == t
    ensures Parse(toks, ofNat) == Failure(if t.Num? then Reported(Fail(n + 1, Integer)) else Unconsumed(n))
  {
    SelectionsThenToken(toks, p3, m.selections, n);
    if t.Num? {
      TrailingFails(toks, ofNat, m, p1, p2, p3, Fail(n + 1, Integer));
    } else {
      TrailingUnconsumed(toks, ofNat, m, p1, p2, p3, n);
    }
  }

  /** The parts before the selections read back, and the selection list breaks off with f. */
  lemma {:induction false} TrailingFails<R>(toks: seq<Token<R>>, ofNat: nat -> R, m: CM.Mesh<R>, p1: nat, p2: nat, p3: nat, f: Fail)
    requires WordAt(toks, 0, HeaderLiteral) && TextAt(toks, 1) == Some(m.created)
    requires NumAt(toks, 2) == Some(m.version.0) && NumAt(toks, 3) == Some(m.version.1)
    requires ParseTable(toks, 4, TagsRule) == Success((m.tags, p1))
    requires ParseTable(toks, p1, TypesRule) == Success((m.types, p2))
    requires ParseMeshObject(toks, p2, ofNat) == Parsed(m.meshObject, p3)
    requires ParseSelections(toks, p3) == Failure(f)
    ensures Parse(toks, ofNat) == Failure(Reported(f))
  {
    ParseRawSteps(toks, ofNat, m.created, m.version.0, m.version.1, m.tags, p1, m.types, p2);
  }

  /** The parts before the selections read back, and the selection list stops at n, short of the end. */
  lemma {:induction false} TrailingUnconsumed<R>(toks: seq<Token<R>>, ofNat: nat -> R, m: CM.Mesh<R>, p1: nat, p2: nat, p3: nat, n: nat)
    requires WordAt(toks, 0, HeaderLiteral) && TextAt(toks, 1) == Some(m.created)
    requires NumAt(toks, 2) == Some(m.version.0) && NumAt(toks, 3) == Some(m.version.1)
    requires ParseTable(toks, 4, TagsRule) == Success((m.tags, p1))
    requires ParseTable(toks, p1, TypesRule) == Success((m.types, p2))
    requires ParseMeshObject(toks, p2, ofNat) == Parsed(m.meshObject, p3)
    requires p3 <= |toks| && ParseSelections(toks, p3) == Success((m.selections, n)) && n != |toks|
    ensures Parse(toks, ofNat) == Failure(Unconsumed(n))
  {
    ParseRawSteps(toks, ofNat, m.created, m.version.0, m.version.1, m.tags, p1, m.types, p2);
  }

  /**
   * Nothing may follow the last selection: one more token after a printed
   * mesh makes the parse fail. An integer starts a selection that then
   * breaks off; any other token is left over.
   */
  lemma {:induction false} TrailingTokenRejected<R>(m: CM.Mesh<R>, t: Token<R>, ofNat: nat -> R)
    requires CM.WellFormed(m)
    ensures var n := |Print(m)|;
            Parse(Print(m) + [t], ofNat) == Failure(if t.Num? then Reported(Fail(n + 1, Integer)) else Unconsumed(n))
  {
    PrintLayout(m, [t]);
    assert (Print(m) + [t])[|Print(m)|] == t;
    TrailingLaidOut(Print(m) + [t], m, t, ofNat, |Print(m)|);
  }

  /**
   * The lowest point index must be 0: a mesh that is well formed except for
   * its base index fails exactly at that number, naming the rule.
   */
  lemma {:induction false} NonzeroBaseIndexRejected<R>(m: CM.Mesh<R>, ofNat: nat -> R)
    requires m.meshObject.index0 != 0
    ensures var at := 4 + 1 + 2 * |m.tags| + 1 + 2 * |m.types| + 8;
            Parse(Print(m), ofNat) == Failure(Reported(Fail(at, Rule(BaseIndexRule))))
  {
    PrintLayout(m, []);
    assert Print(m) + [] == Print(m);
    BaseIndexLaidOut(Print(m), m, ofNat);
  }

  /** A laid-out mesh whose base index is not 0 fails at that number. */
  lemma {:induction false} BaseIndexLaidOut<R>(toks: seq<Token<R>>, m: CM.Mesh<R>, ofNat: nat -> R)
    requires m.meshObject.index0 != 0 && LaidOut(toks, m)
    ensures var at := 4 + 1 + 2 * |m.tags| + 1 + 2 * |m.types| + 8;
            Parse(toks, ofNat) == Failure(Reported(Fail(at, Rule(BaseIndexRule))))
  {
    var p1 := 4 + 1 + 2 * |m.tags|;
    var p2 := p1 + 1 + 2 * |m.types|;
    PrintedTables(toks, m);
    assert ParseMeshObject(toks, p2, ofNat) == Hard(Fail(p2 + 8, Rule(BaseIndexRule))) by {
      ObjectHeadAt(toks, p2, m.meshObject);
    }
    ParseRawSteps(toks, ofNat, m.created, m.version.0, m.version.1, m.tags, p1, m.types, p2);
  }
}
