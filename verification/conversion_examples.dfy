/**
 * Worked conversions of small meshes, with the default Aero type ids
 * (tri 3, tet 23, pyr 17, prism 24, hex 17).
 */
module ConversionExamples {
  import opened Wrappers
  import CM = ComsolMesh
  import AM = AeroMesh
  import opened ElementMapping
  import opened Conversion
  import SF = SelectionFold

  const DefaultOptions: map<string, nat> := map["tri" := 3, "tet" := 23, "pyr" := 17, "prism" := 24, "hex" := 17]

  const Coords: seq<seq<int>> := [[0, 0, 0], [1, 0, 0], [0, 1, 0], [0, 0, 1]]

  /** Two copies of one tetrahedron, in domains 1 and 2. */
  const TetSet: CM.ElementSet := CM.ElementSet(CM.ElementType(3, "tet"), [[0, 1, 2, 3], [0, 1, 2, 3]], [1, 2])

  /** One triangle on surface 0. */
  const TriSet: CM.ElementSet := CM.ElementSet(CM.ElementType(3, "tri"), [[0, 1, 2]], [0])

  function MeshOf(sets: seq<CM.ElementSet>, sels: seq<CM.SelectionObject>): CM.Mesh<int> {
    CM.Mesh("# Created by COMSOL Multiphysics", (0, 1), [], [],
            CM.MeshObject(0, 4, 3, 4, 0, Coords, sets), sels)
  }

  function DefaultConverter(fold: bool, prefixes: seq<string>, accepted: seq<string>): Converter {
    Converter(fold, Mapper(Tri, 3), Mapper(Quad, QuadTypeId), Mapper(Tet, 23), Mapper(Pyr, 17),
              Mapper(Prism, 24), Mapper(Hex, 17), prefixes, accepted)
  }

  lemma DefaultConverterBuilt(fold: bool, prefixes: seq<string>, accepted: seq<string>)
    ensures MakeConverter(fold, DefaultOptions, prefixes, accepted) == Success(DefaultConverter(fold, prefixes, accepted))
  {
  }

  /** Each tetrahedron is reindexed to Aero's node order and keeps its domain as attribute. */
  lemma TetStep()
    ensures Step(DefaultConverter(false, [], []), [], Partial([], [], [], [], 0, 0), TetSet)
              == Partial([AM.Element(23, [3, 1, 2, 4]), AM.Element(23, [3, 1, 2, 4])], [1, 2], [], [], 0, 0)
  {
    var c := DefaultConverter(false, [], []);
    var e := AM.Element(23, [3, 1, 2, 4]);
    assert Map(c.tet, [0, 1, 2, 3]) == [3, 1, 2, 4];
    assert MapElements(c.tet, TetSet.elements) == [e, e];
    assert LabelChunk(c, []) == [];
    assert DomainFold(c, [], [1, 2]) == SF.FoldResult([1, 2], 0, 0);
  }

  /** The tetrahedra are reindexed and, without folding, keep their domains as attributes. */
  lemma TetSetConverted()
    ensures ConvertSets(DefaultConverter(false, [], []), [], [TetSet], 1)
              == Success(Partial([AM.Element(23, [3, 1, 2, 4]), AM.Element(23, [3, 1, 2, 4])], [1, 2], [], [], 0, 0))
  {
    var c := DefaultConverter(false, [], []);
    var st0 := Partial([], [], [], [], 0, 0);
    assert SetError(c, TetSet) == None;
    assert ConvertSets(c, [], [TetSet], 0) == Success(st0);
    TetStep();
  }

  /** Without folding, the attributes are the domains' geometric indices. */
  lemma TetAttributesAreDomains()
    ensures var c := DefaultConverter(false, [], []);
            Convert(c, MeshOf([TetSet], [])) ==
              Success(Converted(AM.Mesh(Coords, [AM.Element(23, [3, 1, 2, 4]), AM.Element(23, [3, 1, 2, 4])],
                                        [], [1, 2], [], []), 0, 0))
  {
    TetSetConverted();
    assert SurfaceGroups([], []) == [];
  }

  /** Two volume selections: "A" lists domain 2, the later "B" lists domains 1 and 2. */
  const TwoSelections: seq<CM.SelectionObject> :=
    [CM.SelectionObject(0, 0, "A", 3, [2]), CM.SelectionObject(0, 0, "B", 3, [1, 2])]

  /** By file position, the later selection wins the shared domain and one write is an overwrite. */
  lemma FoldByPosition()
    ensures SF.MapSelectionsToAttributes(TwoSelections, [], [1, 2]) == SF.FoldResult([2, 2], 1, 0)
  {
    var r := SF.MapSelectionsToAttributes(TwoSelections, [], [1, 2]);
    assert SF.SelectionId(TwoSelections, [], 0) == Some(0);
    assert SF.SelectionId(TwoSelections, [], 1) == Some(1);
    assert SF.LastClaim(TwoSelections, [], 2, 1) == Some(1);
    assert SF.LastClaim(TwoSelections, [], 2, 2) == Some(1);
    assert r.attributes[0] == 2 && r.attributes[1] == 2;
    assert r.attributes == [2, 2];
    assert SF.Unclaimed(TwoSelections, [], [2]) == 0;
    assert SF.EntityMatches([1, 2], [2]) == 1;
    assert SF.EntityMatches([1, 2], [1, 2]) == 2;
  }

  /** With an allowlist, ids are allowlist positions: "B" writes 1 and "A" writes 2. */
  lemma FoldByAllowlist()
    ensures SF.MapSelectionsToAttributes(TwoSelections, ["B", "A"], [1, 2]) == SF.FoldResult([1, 1], 1, 0)
  {
    assert SF.IndexOf(["B", "A"], "A") == 1;
    assert SF.IndexOf(["B", "A"], "B") == 0;
    assert SF.LastClaim(TwoSelections, ["B", "A"], 2, 1) == Some(0);
    assert SF.LastClaim(TwoSelections, ["B", "A"], 2, 2) == Some(0);
    assert SF.Unclaimed(TwoSelections, ["B", "A"], [2]) == 0;
    assert SF.EntityMatches([1, 2], [2]) == 1;
    assert SF.EntityMatches([1, 2], [1, 2]) == 2;
  }

  /** Under the allowlist ["A"], domain 1 is claimed by no selection and domain 2 by "A". */
  lemma AllowlistClaims()
    ensures SF.Unclaimed(TwoSelections, ["A"], [1, 2]) == 1
  {
    assert SF.IndexOf(["A"], "A") == 0;
    assert SF.LastClaim(TwoSelections, ["A"], 2, 1) == None;
    assert SF.Unclaimed(TwoSelections, ["A"], [2]) == 0;
  }

  /** An allowlist that leaves domain 1 unclaimed makes the conversion fail, naming the labels A and B. */
  lemma AllowlistMustCover()
    ensures Convert(DefaultConverter(true, [], ["A"]), MeshOf([TetSet], TwoSelections)) == Failure(CoverageMessage(TwoSelections))
    ensures LabelList(TwoSelections) == ", A, B"
  {
    var c := DefaultConverter(true, [], ["A"]);
    var mesh := MeshOf([TetSet], TwoSelections);
    AllowlistLeavesOne();
    assert mesh.selections == TwoSelections && mesh.meshObject.elementSets == [TetSet];
    CoverageFailure(c, mesh);
    TwoLabels();
  }

  lemma TwoLabels()
    ensures LabelList(TwoSelections) == ", A, B"
  {
    assert TwoSelections[1..][1..] == [];
    assert LabelList(TwoSelections[1..][1..]) == "";
    assert LabelList(TwoSelections[1..]) == ", B";
  }

  /** The tetrahedron set passes the checks, and the allowlist ["A"] leaves one of its elements unassigned. */
  lemma AllowlistLeavesOne()
    ensures var c := DefaultConverter(true, [], ["A"]);
            && WellShaped(c, [TetSet])
            && (forall i :: 0 <= i < |[TetSet]| ==> SetError(c, [TetSet][i]).None?)
            && RefNotAssigned(c, TwoSelections, [TetSet], 1) == 1
  {
    var c := DefaultConverter(true, [], ["A"]);
    assert SetError(c, TetSet) == None;
    AllowlistClaims();
    assert RefNotAssigned(c, TwoSelections, [TetSet], 0) == 0;
  }

  /** With every set passing its checks, an allowlist leaving an element unclaimed is the failure reported. */
  lemma CoverageFailure<R>(c: Converter, mesh: CM.Mesh<R>)
    requires WellShaped(c, mesh.meshObject.elementSets)
    requires forall i :: 0 <= i < |mesh.meshObject.elementSets| ==> SetError(c, mesh.meshObject.elementSets[i]).None?
    requires |c.accepted| > 0
    requires RefNotAssigned(c, mesh.selections, mesh.meshObject.elementSets, |mesh.meshObject.elementSets|) > 0
    ensures Convert(c, mesh) == Failure(CoverageMessage(mesh.selections))
  {
  }

  const FaceSelection: CM.SelectionObject := CM.SelectionObject(0, 0, "S", 2, [0])

  /** The triangle is stored under ("wall", 1) and its label chunk is the selection's label. */
  lemma TriSetConverted()
    ensures ConvertSets(DefaultConverter(false, ["wall"], []), [FaceSelection], [TriSet], 1)
              == Success(Partial([], [], ["S"], [AM.Bucket(AM.TopologyId("wall", 1), [AM.Element(3, [3, 1, 2])])], 0, 0))
  {
    var c := DefaultConverter(false, ["wall"], []);
    var e := AM.Element(3, [3, 1, 2]);
    var t := [AM.Bucket(AM.TopologyId("wall", 1), [e])];
    var st0 := Partial([], [], [], [], 0, 0);
    assert SetError(c, TriSet) == None;
    assert ConvertSets(c, [FaceSelection], [TriSet], 0) == Success(st0);
    assert Step(c, [FaceSelection], st0, TriSet) == Partial([], [], ["S"], t, 0, 0) by {
      assert Map(c.tri, [0, 1, 2]) == [3, 1, 2];
      assert KeyFor(["wall"], 0) == AM.TopologyId("wall", 1);
      assert InsertFaces([], c.tri, ["wall"], TriSet.elements, [0]) == t;
      assert LabelChunk(c, [FaceSelection]) == ["S"];
    }
  }

  /** A triangle on surface 0 is stored under ("wall", 1) and gathered by the face selection listing 0. */
  lemma TriangleOnNamedSurface()
    ensures Convert(DefaultConverter(false, ["wall"], []), MeshOf([TriSet], [FaceSelection]))
              == Success(Converted(AM.Mesh(Coords, [], ["S"], [],
                                           [AM.Bucket(AM.TopologyId("wall", 1), [AM.Element(3, [3, 1, 2])])],
                                           [AM.SelectionSurface("S", [AM.Element(3, [3, 1, 2])])]), 0, 0))
  {
    var e := AM.Element(3, [3, 1, 2]);
    var t := [AM.Bucket(AM.TopologyId("wall", 1), [e])];
    TriSetConverted();
    assert SurfaceGroups([FaceSelection], t) == [AM.SelectionSurface("S", [e])] by {
      assert SurfaceSelections([FaceSelection]) == [FaceSelection];
      assert BucketsFor(t, 0) == [e];
      assert Gather(t, [0]) == [e];
    }
  }

  /** A face on surface 1 with a single surface name has no prefix and aborts the conversion. */
  lemma MissingSurfaceName()
    ensures Convert(DefaultConverter(false, ["wall"], []),
                    MeshOf([CM.ElementSet(CM.ElementType(3, "tri"), [[0, 1, 2]], [1])], []))
              == Failure(TooManySurfacesMessage)
  {
    var c := DefaultConverter(false, ["wall"], []);
    var es := CM.ElementSet(CM.ElementType(3, "tri"), [[0, 1, 2]], [1]);
    assert !GeomValid(c.prefixes, es.geometricIndices[0]);
    assert SetError(c, es) == Some(TooManySurfacesMessage);
    assert ConvertSets(c, [], [es], 0) == Success(Partial([], [], [], [], 0, 0));
  }

  /**
   * A set whose counts differ is refused before any element is mapped, so a
   * tetrahedron with two nodes is no obstacle: the count error is reported.
   */
  lemma ShortElementCountMismatch()
    ensures var c := DefaultConverter(false, [], []);
            var sets := [CM.ElementSet(CM.ElementType(3, "tet"), [[0, 1]], [])];
            WellShaped(c, sets) && Convert(c, MeshOf(sets, [])) == Failure(CountMismatchMessage)
  {
    var c := DefaultConverter(false, [], []);
    var es := CM.ElementSet(CM.ElementType(3, "tet"), [[0, 1]], []);
    assert MappedCount(c, es) == 0;
    assert SetError(c, es) == Some(CountMismatchMessage);
    assert ConvertSets(c, [], [es], 0) == Success(Partial([], [], [], [], 0, 0));
  }

  /**
   * A boundary set is mapped face by face up to the first face without a
   * surface name, and nothing after the erring set is read: a one-node
   * triangle after that face, and a one-node tetrahedron in the next set,
   * leave the too-many-surfaces error in place.
   */
  lemma ShortFacesAfterMissingName()
    ensures var c := DefaultConverter(false, ["wall"], []);
            var sets := [CM.ElementSet(CM.ElementType(3, "tri"), [[0, 1, 2], [0]], [1, 0]),
                         CM.ElementSet(CM.ElementType(3, "tet"), [[0]], [1])];
            WellShaped(c, sets) && Convert(c, MeshOf(sets, [])) == Failure(TooManySurfacesMessage)
  {
    var c := DefaultConverter(false, ["wall"], []);
    var tri := CM.ElementSet(CM.ElementType(3, "tri"), [[0, 1, 2], [0]], [1, 0]);
    var tet := CM.ElementSet(CM.ElementType(3, "tet"), [[0]], [1]);
    var sets := [tri, tet];
    assert !GeomValid(c.prefixes, tri.geometricIndices[0]);
    assert MappedFaces(c.prefixes, tri.geometricIndices) == 1;
    assert SetFits(c, tri);
    assert SetError(c, tri) == Some(TooManySurfacesMessage);
    assert !NoErrors(c, sets, 1) by {
      assert sets[0] == tri;
    }
    assert WellShaped(c, sets) by {
      forall i | 0 <= i < |sets| && NoErrors(c, sets, i) ensures SetFits(c, sets[i]) {
        assert i == 0;
      }
    }
    assert ConvertSets(c, [], sets, 0) == Success(Partial([], [], [], [], 0, 0));
    assert ConvertSets(c, [], sets, 1) == Failure(TooManySurfacesMessage);
  }
}
