/**
 * The source mesh record, as the COMSOL text-format parser fills it.
 * Coordinates are of an opaque type R: the model does not interpret reals.
 */
module ComsolMesh {

  /** The element type line: a numeric tag and the shape keyword. */
  datatype ElementType = ElementType(tag: nat, name: string)

  /**
   * One element set: its type, the elements (each a sequence of 0-based
   * node indices) and one geometric index per element.
   */
  datatype ElementSet = ElementSet(
    elementType: ElementType,
    elements: seq<seq<nat>>,
    geometricIndices: seq<nat>)

  /** The mesh object, fields in the order the parser fills them. */
  datatype MeshObject<R> = MeshObject(
    classId: nat,
    version: nat,
    spaceDimensions: nat,
    numMeshPoints: nat,
    index0: nat,
    coordinates: seq<seq<R>>,
    elementSets: seq<ElementSet>)

  /** A selection of geometric entities of one dimension; `name` is its label. */
  datatype SelectionObject = SelectionObject(
    classId: nat,
    version: nat,
    name: string,
    dimSize: nat,
    entities: seq<nat>)

  /** A whole COMSOL mesh file: exactly one mesh object, then any number of selections. */
  datatype Mesh<R> = Mesh(
    created: string,
    version: (nat, nat),
    tags: seq<(nat, string)>,
    types: seq<(nat, string)>,
    meshObject: MeshObject<R>,
    selections: seq<SelectionObject>)

  /** The shape keywords the element-type rule accepts, in the rule's order. */
  const ShapeKeywords: seq<string> := ["vtx", "edg", "tet", "tri", "quad", "hex", "pyr", "prism"]

  /** Labels of all selections, in file order. */
  function SelectionLabels(sels: seq<SelectionObject>): (labels: seq<string>)
    ensures |labels| == |sels|
    ensures forall i :: 0 <= i < |sels| ==> labels[i] == sels[i].name
  {
    seq(|sels|, i requires 0 <= i < |sels| => sels[i].name)
  }

  /** Nodes per element of a set: the first element's length, or 0 for an empty set. */
  function NodesPerElement(es: ElementSet): nat {
    if |es.elements| == 0 then 0 else |es.elements[0]|
  }

  /** A set the element-set rule can produce: a known shape, equal counts, equal element lengths. */
  predicate SetWellFormed(es: ElementSet) {
    && es.elementType.name in ShapeKeywords
    && |es.elements| == |es.geometricIndices|
    && forall j :: 0 <= j < |es.elements| ==> |es.elements[j]| == NodesPerElement(es)
  }

  /** A mesh object the mesh rule can produce: base index 0, every point of the space's dimension. */
  predicate ObjectWellFormed<R>(o: MeshObject<R>) {
    && o.index0 == 0
    && o.numMeshPoints == |o.coordinates|
    && (forall i :: 0 <= i < |o.coordinates| ==> |o.coordinates[i]| == o.spaceDimensions)
    && forall i :: 0 <= i < |o.elementSets| ==> SetWellFormed(o.elementSets[i])
  }

  /** What the grammar guarantees of any mesh it accepts. */
  predicate WellFormed<R>(m: Mesh<R>) {
    ObjectWellFormed(m.meshObject)
  }
}
