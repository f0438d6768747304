/**
 * Element reindexing: each supported COMSOL element shape has a fixed table of
 * source-local node positions, listed in the order the Aero formats expect the
 * nodes. Mapping an element reads the source element at each listed position
 * and shifts the 0-based COMSOL node index to the 1-based Aero node id.
 *
 * Also holds the tables of Aero element type ids that the command line accepts
 * for each shape.
 */
module ElementMapping {

  /** The COMSOL shapes the converter has a mapper for. */
  datatype Shape = Tri | Quad | Tet | Pyr | Prism | Hex

  /** Source-local node position read for each target node, in target order. */
  function Permutation(s: Shape): seq<nat> {
    match s
    case Tri => [2, 0, 1]
    case Quad => [2, 0, 1, 3]
    case Tet => [2, 0, 1, 3]
    case Pyr => [4, 4, 4, 4, 2, 0, 1, 3]
    case Prism => [2, 0, 1, 5, 3, 4]
    case Hex => [6, 2, 3, 7, 4, 0, 1, 5]
  }

  /** Number of nodes a COMSOL element of this shape carries. */
  function SourceNodes(s: Shape): nat {
    match s
    case Tri => 3
    case Quad => 4
    case Tet => 4
    case Pyr => 5
    case Prism => 6
    case Hex => 8
  }

  /**
   * For each source-local position, one target position that reads it.
   * Every source node appears in the target, so this table exists for
   * every shape (the pyramid repeats its apex four times).
   */
  function InversePermutation(s: Shape): seq<nat> {
    match s
    case Tri => [1, 2, 0]
    case Quad => [1, 2, 0, 3]
    case Tet => [1, 2, 0, 3]
    case Pyr => [5, 6, 4, 7, 0]
    case Prism => [1, 2, 0, 4, 5, 3]
    case Hex => [5, 6, 1, 2, 4, 7, 0, 3]
  }

  /** Only the pyramid lists a source position more than once. */
  predicate Degenerate(s: Shape) {
    s == Pyr
  }

  /** The inverse table inverts the permutation, both ways unless the shape is degenerate. */
  predicate InverseTables(s: Shape) {
    && |InversePermutation(s)| == SourceNodes(s)
    && (forall k :: 0 <= k < |Permutation(s)| ==> Permutation(s)[k] < SourceNodes(s))
    && (forall i :: 0 <= i < SourceNodes(s) ==>
          InversePermutation(s)[i] < |Permutation(s)| && Permutation(s)[InversePermutation(s)[i]] == i)
    && (!Degenerate(s) ==> |Permutation(s)| == SourceNodes(s))
    && (!Degenerate(s) ==> forall k :: 0 <= k < |Permutation(s)| ==> InversePermutation(s)[Permutation(s)[k]] == k)
  }

  lemma PermutationTables(s: Shape)
    ensures |InversePermutation(s)| == SourceNodes(s)
    ensures forall k :: 0 <= k < |Permutation(s)| ==> Permutation(s)[k] < SourceNodes(s)
    ensures forall i :: 0 <= i < SourceNodes(s) ==>
              InversePermutation(s)[i] < |Permutation(s)| && Permutation(s)[InversePermutation(s)[i]] == i
    ensures !Degenerate(s) ==> |Permutation(s)| == SourceNodes(s)
    ensures !Degenerate(s) ==> forall k :: 0 <= k < |Permutation(s)| ==> InversePermutation(s)[Permutation(s)[k]] == k
  {
    match s
    case Tri => TriTables();
    case Quad => QuadTables();
    case Tet => TetTables();
    case Pyr => PyrTables();
    case Prism => PrismTables();
    case Hex => HexTables();
  }

  lemma TriTables() ensures InverseTables(Tri) {}
  lemma QuadTables() ensures InverseTables(Quad) {}
  lemma TetTables() ensures InverseTables(Tet) {}
  lemma PyrTables() ensures InverseTables(Pyr) {
    var p := Permutation(Pyr);
    var inv := InversePermutation(Pyr);
    forall k | 0 <= k < 8 ensures p[k] < 5 {
      assert k == 0 || k == 1 || k == 2 || k == 3 || k == 4 || k == 5 || k == 6 || k == 7;
    }
    forall i | 0 <= i < 5 ensures inv[i] < 8 && p[inv[i]] == i {
      assert i == 0 || i == 1 || i == 2 || i == 3 || i == 4;
    }
  }
  lemma PrismTables() ensures InverseTables(Prism) {
    var p := Permutation(Prism);
    var inv := InversePermutation(Prism);
    forall k | 0 <= k < 6 ensures p[k] < 6 && inv[k] < 6 && p[inv[k]] == k && inv[p[k]] == k {
      assert k == 0 || k == 1 || k == 2 || k == 3 || k == 4 || k == 5;
    }
  }
  lemma HexTables() ensures InverseTables(Hex) {
    var p := Permutation(Hex);
    var inv := InversePermutation(Hex);
    forall k | 0 <= k < 8 ensures p[k] < 8 && inv[k] < 8 && p[inv[k]] == k && inv[p[k]] == k {
      assert k == 0 || k == 1 || k == 2 || k == 3 || k == 4 || k == 5 || k == 6 || k == 7;
    }
  }

  /** A mapper: the shape's permutation plus the Aero type id chosen at construction. */
  datatype Mapper = Mapper(shape: Shape, toId: nat)

  /** The source demands, unchecked, that every position it reads exists in the element. */
  predicate Fits(s: Shape, element: seq<nat>) {
    forall k :: 0 <= k < |Permutation(s)| ==> Permutation(s)[k] < |element|
  }

  /** An element fits exactly when it has at least as many nodes as the shape. */
  lemma FitsIff(s: Shape, element: seq<nat>)
    ensures Fits(s, element) <==> |element| >= SourceNodes(s)
  {
    PermutationTables(s);
    if Fits(s, element) {
      var k := InversePermutation(s)[SourceNodes(s) - 1];
      assert Permutation(s)[k] == SourceNodes(s) - 1;
    }
  }

  /**
   * Target connectivity of a source element: as many entries as the
   * permutation, whatever the element's own length, entry k being the
   * 1-based id of the node at source position Permutation[k].
   */
  function Map(m: Mapper, element: seq<nat>): (con: seq<nat>)
    requires Fits(m.shape, element)
    ensures |con| == |Permutation(m.shape)|
    ensures forall k :: 0 <= k < |con| ==> con[k] >= 1 && con[k] - 1 == element[Permutation(m.shape)[k]]
  {
    var p := Permutation(m.shape);
    seq(|p|, k requires 0 <= k < |p| => element[p[k]] + 1)
  }

  /** Recovers the 0-based source element from a target connectivity. */
  function Unmap(s: Shape, con: seq<nat>): (element: seq<nat>)
    requires |con| == |Permutation(s)|
    requires forall k :: 0 <= k < |con| ==> con[k] >= 1
    ensures |element| == SourceNodes(s)
  {
    PermutationTables(s);
    var inv := InversePermutation(s);
    seq(SourceNodes(s), i requires 0 <= i < SourceNodes(s) => con[inv[i]] - 1)
  }

  /** Every shape's mapping loses no node: unmapping restores the source element. */
  lemma UnmapMap(m: Mapper, element: seq<nat>)
    requires |element| == SourceNodes(m.shape)
    ensures Fits(m.shape, element)
    ensures Unmap(m.shape, Map(m, element)) == element
  {
    FitsIff(m.shape, element);
    PermutationTables(m.shape);
    var u := Unmap(m.shape, Map(m, element));
    forall i | 0 <= i < |element|
      ensures u[i] == element[i]
    {
      var k := InversePermutation(m.shape)[i];
      assert Permutation(m.shape)[k] == i;
    }
  }

  /**
   * For the non-degenerate shapes the mapping is a bijection: any 1-based
   * connectivity of the right length is the image of its unmapped element.
   */
  lemma MapUnmap(m: Mapper, con: seq<nat>)
    requires !Degenerate(m.shape)
    requires |con| == |Permutation(m.shape)|
    requires forall k :: 0 <= k < |con| ==> con[k] >= 1
    ensures Fits(m.shape, Unmap(m.shape, con))
    ensures Map(m, Unmap(m.shape, con)) == con
  {
    PermutationTables(m.shape);
    var e := Unmap(m.shape, con);
    FitsIff(m.shape, e);
    var r := Map(m, e);
    forall k | 0 <= k < |con|
      ensures r[k] == con[k]
    {
      var i := Permutation(m.shape)[k];
      assert InversePermutation(m.shape)[i] == k;
    }
  }

  /** The degenerate pyramid repeats its apex in the first four target slots. */
  lemma PyramidApexRepeated(m: Mapper, element: seq<nat>)
    requires m.shape == Pyr && Fits(Pyr, element)
    ensures var con := Map(m, element);
            |con| == 8 && con[0] == con[1] == con[2] == con[3] == element[4] + 1
  {
  }

  /**
   * Supported Aero type ids per shape, as (type id, element order) pairs.
   * The tetrahedron table has nine slots but seven initialisers, so its last
   * two entries are value-initialised to (0, 0). Quadrilaterals have no
   * table: their type id is fixed.
   */
  function Supported(s: Shape): seq<(nat, nat)> {
    match s
    case Tri => [(3, 1), (4, 1)]
    case Quad => []
    case Tet => [(5, 1), (23, 1), (40, 1), (41, 1), (50, 1), (311, 1), (331, 1), (0, 0), (0, 0)]
    case Pyr => [(17, 1), (44, 1), (45, 1), (51, 1), (70, 1), (82, 1), (201, 1), (202, 1)]
    case Prism => [(24, 1), (83, 1), (90, 1)]
    case Hex => [(17, 1), (44, 1), (45, 1), (51, 1), (70, 1), (82, 1), (201, 1), (202, 1)]
  }

  /** The Aero type id given to every quadrilateral surface element. */
  const QuadTypeId: nat := 1

  /** An id is supported when it is the first component of some table entry. */
  predicate IsSupported(s: Shape, id: nat) {
    exists k :: 0 <= k < |Supported(s)| && Supported(s)[k].0 == id
  }

  lemma SupportedTables()
    ensures Supported(Pyr) == Supported(Hex)
    ensures |Supported(Tet)| == 9 && Supported(Tet)[7] == (0, 0) && Supported(Tet)[8] == (0, 0)
    ensures IsSupported(Tet, 0)
    ensures forall id :: IsSupported(Tri, id) <==> id in {3, 4}
    ensures forall id :: IsSupported(Prism, id) <==> id in {24, 83, 90}
  {
    assert Supported(Tet)[7].0 == 0;
    forall id | id in {3, 4}
      ensures IsSupported(Tri, id)
    {
      assert Supported(Tri)[if id == 3 then 0 else 1].0 == id;
    }
    forall id | id in {24, 83, 90}
      ensures IsSupported(Prism, id)
    {
      assert Supported(Prism)[if id == 24 then 0 else if id == 83 then 1 else 2].0 == id;
    }
  }
}
