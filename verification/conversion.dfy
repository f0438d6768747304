/**
 * The converter: builds the Aero mesh from a parsed COMSOL mesh.
 *
 * Element sets are processed in file order. A set whose shape has a domain
 * mapper (tet, pyr, prism, hex) contributes volume elements and one attribute
 * per element; a set whose shape has a boundary mapper (tri, quad) contributes
 * faces to the surface topology of its geometric index; any other set is
 * ignored. After every set, whatever its shape, the attribute labels are
 * appended once more. Face selections then gather the boundary faces of the
 * surfaces they list.
 */
module Conversion {
  import opened Wrappers
  import CM = ComsolMesh
  import AM = AeroMesh
  import opened ElementMapping
  import SF = SelectionFold

  const UnknownTypeMessage: string := "Unkown element type: "
  const CountMismatchMessage: string := "Geometric index size and element array size are not the same."
  const TooManySurfacesMessage: string :=
    "Comsol geometry contains more surfaces than the number of surface names provided."
  const CoverageMessageBase: string :=
    "Selection set does not cover all elements. Please make sure that the comsol selections include "
    + "all possible elements and that command line arguments contain them. Alternatively do not "
    + "provide any selection names in the -s command."

  /** The order in which the constructor looks up the configurable mappers. */
  const MapperOrder: seq<string> := ["tri", "tet", "pyr", "prism", "hex"]

  /**
   * A configured converter: the mappers per shape, whether selections become
   * attributes, the surface-name prefixes and the selection-label allowlist.
   */
  datatype Converter = Converter(
    selectionsToAttributes: bool,
    tri: Mapper, quad: Mapper,
    tet: Mapper, pyr: Mapper, prism: Mapper, hex: Mapper,
    prefixes: seq<string>,
    accepted: seq<string>)

  /**
   * Builds the converter. Every configurable shape must have an Aero type id
   * in the options; the first missing one, in constructor order, is reported.
   */
  function MakeConverter(selectionsToAttributes: bool, options: map<string, nat>,
                         prefixes: seq<string>, accepted: seq<string>): (r: Result<Converter, string>)
    ensures r.Success? <==> forall i :: 0 <= i < |MapperOrder| ==> MapperOrder[i] in options
    ensures r.Failure? ==>
              exists i :: 0 <= i < |MapperOrder| && MapperOrder[i] !in options
                          && (forall i' :: 0 <= i' < i ==> MapperOrder[i'] in options)
                          && r.error == UnknownTypeMessage + MapperOrder[i]
    ensures r.Success? ==>
              && "tri" in options && "tet" in options && "pyr" in options
              && "prism" in options && "hex" in options
              && r.value.tri == Mapper(Tri, options["tri"])
              && r.value.quad == Mapper(Quad, QuadTypeId)
              && r.value.tet == Mapper(Tet, options["tet"])
              && r.value.pyr == Mapper(Pyr, options["pyr"])
              && r.value.prism == Mapper(Prism, options["prism"])
              && r.value.hex == Mapper(Hex, options["hex"])
              && r.value.selectionsToAttributes == selectionsToAttributes
              && r.value.prefixes == prefixes && r.value.accepted == accepted
  {
    assert MapperOrder == ["tri", "tet", "pyr", "prism", "hex"];
    if "tri" !in options then FirstMissing(options, 0); Failure(UnknownTypeMessage + "tri")
    else if "tet" !in options then FirstMissing(options, 1); Failure(UnknownTypeMessage + "tet")
    else if "pyr" !in options then FirstMissing(options, 2); Failure(UnknownTypeMessage + "pyr")
    else if "prism" !in options then FirstMissing(options, 3); Failure(UnknownTypeMessage + "prism")
    else if "hex" !in options then FirstMissing(options, 4); Failure(UnknownTypeMessage + "hex")
    else
      Success(Converter(selectionsToAttributes,
                        Mapper(Tri, options["tri"]), Mapper(Quad, QuadTypeId),
                        Mapper(Tet, options["tet"]), Mapper(Pyr, options["pyr"]),
                        Mapper(Prism, options["prism"]), Mapper(Hex, options["hex"]),
                        prefixes, accepted))
  }

  lemma FirstMissing(options: map<string, nat>, i: nat)
    requires i < |MapperOrder| && MapperOrder[i] !in options
    requires forall i' :: 0 <= i' < i ==> MapperOrder[i'] in options
    ensures exists i: nat :: i < |MapperOrder| && MapperOrder[i] !in options
                             && (forall i' :: 0 <= i' < i ==> MapperOrder[i'] in options)
  {
  }

  /** The domain mapper registered under a shape keyword. */
  function DomainMapper(c: Converter, name: string): Option<Mapper> {
    if name == "tet" then Some(c.tet)
    else if name == "pyr" then Some(c.pyr)
    else if name == "prism" then Some(c.prism)
    else if name == "hex" then Some(c.hex)
    else None
  }

  /** The boundary mapper registered under a shape keyword. */
  function BoundaryMapper(c: Converter, name: string): Option<Mapper> {
    if name == "tri" then Some(c.tri)
    else if name == "quad" then Some(c.quad)
    else None
  }

  /** The mapper a set's elements go through, domain mappers first. */
  function MapperFor(c: Converter, name: string): Option<Mapper> {
    if DomainMapper(c, name).Some? then DomainMapper(c, name) else BoundaryMapper(c, name)
  }

  /**
   * How many faces of a boundary set the converter maps: it maps each face
   * before checking its geometric index, so it stops after the first face
   * whose index has no key, and maps them all when there is none.
   */
  function MappedFaces(prefixes: seq<string>, geom: seq<nat>): (r: nat)
    ensures r <= |geom|
    ensures (forall j :: 0 <= j < |geom| ==> GeomValid(prefixes, geom[j])) ==> r == |geom|
    ensures forall j :: 0 <= j < r - 1 ==> GeomValid(prefixes, geom[j])
    ensures (exists j :: 0 <= j < |geom| && !GeomValid(prefixes, geom[j])) ==> 0 < r && !GeomValid(prefixes, geom[r - 1])
  {
    if |geom| == 0 then 0
    else if !GeomValid(prefixes, geom[0]) then 1
    else
      assert forall j :: 1 <= j < |geom| ==> geom[j] == geom[1..][j - 1];
      1 + MappedFaces(prefixes, geom[1..])
  }

  /**
   * How many elements of a set the converter maps: none when the counts
   * differ or the shape has no mapper; every element of a volume set; the
   * faces of a boundary set up to the first one without a key.
   */
  function MappedCount(c: Converter, es: CM.ElementSet): (r: nat)
    ensures r <= |es.elements|
    ensures SetError(c, es).None? && MapperFor(c, es.elementType.name).Some? ==> r == |es.elements|
  {
    var name := es.elementType.name;
    if |es.elements| != |es.geometricIndices| then 0
    else if DomainMapper(c, name).Some? then |es.elements|
    else if BoundaryMapper(c, name).Some? then MappedFaces(c.prefixes, es.geometricIndices)
    else 0
  }

  /**
   * The converter reads every permutation position of every element it maps
   * without a bounds check; the model requires those reads to be in range.
   */
  predicate SetFits(c: Converter, es: CM.ElementSet) {
    MapperFor(c, es.elementType.name).Some? ==>
      forall j :: 0 <= j < MappedCount(c, es) ==> Fits(MapperFor(c, es.elementType.name).value.shape, es.elements[j])
  }

  /** No set below n raises an error. */
  predicate NoErrors(c: Converter, sets: seq<CM.ElementSet>, n: nat)
    requires n <= |sets|
  {
    forall i :: 0 <= i < n ==> SetError(c, sets[i]).None?
  }

  /** The sets the converter reaches, that is those up to the first erring one, fit their shapes. */
  predicate WellShaped(c: Converter, sets: seq<CM.ElementSet>) {
    forall i :: 0 <= i < |sets| && NoErrors(c, sets, i) ==> SetFits(c, sets[i])
  }

  function MapElements(m: Mapper, elements: seq<seq<nat>>): (r: seq<AM.Element>)
    requires forall j :: 0 <= j < |elements| ==> Fits(m.shape, elements[j])
    ensures |r| == |elements|
    ensures forall j :: 0 <= j < |r| ==> r[j].typeId == m.toId && r[j].connectivity == Map(m, elements[j])
  {
    seq(|elements|, j requires 0 <= j < |elements| => AM.Element(m.toId, Map(m, elements[j])))
  }

  // ---------------------------------------------------------------------
  // Surface topology keys.

  /** A geometric index has a key: any index without prefixes, else one below the prefix count. */
  predicate GeomValid(prefixes: seq<string>, g: nat) {
    |prefixes| == 0 || g < |prefixes|
  }

  /** The key of the faces with geometric index g: (its prefix, g + 1). */
  function KeyFor(prefixes: seq<string>, g: nat): AM.TopologyId
    requires GeomValid(prefixes, g)
  {
    AM.TopologyId(if |prefixes| == 0 then "" else prefixes[g], g + 1)
  }

  /** A key some face can be stored under. */
  predicate ValidKey(prefixes: seq<string>, k: AM.TopologyId) {
    k.id >= 1 && GeomValid(prefixes, k.id - 1) && k == KeyFor(prefixes, k.id - 1)
  }

  lemma KeyForIff(prefixes: seq<string>, g: nat, k: AM.TopologyId)
    requires GeomValid(prefixes, g)
    ensures KeyFor(prefixes, g) == k <==> ValidKey(prefixes, k) && k.id - 1 == g
  {
  }

  predicate KeysValid(prefixes: seq<string>, t: seq<AM.Bucket>) {
    forall k :: k in AM.Keys(t) ==> ValidKey(prefixes, k)
  }

  /** The mapped faces whose geometric index is g, in order. */
  function FacesWithGeom(m: Mapper, elements: seq<seq<nat>>, geom: seq<nat>, g: nat): seq<AM.Element>
    requires |elements| == |geom|
    requires forall j :: 0 <= j < |elements| ==> Fits(m.shape, elements[j])
  {
    if |geom| == 0 then []
    else (if geom[0] == g then [AM.Element(m.toId, Map(m, elements[0]))] else [])
         + FacesWithGeom(m, elements[1..], geom[1..], g)
  }

  /** Stores every face of a boundary set under its key, in order. */
  function InsertFaces(t: seq<AM.Bucket>, m: Mapper, prefixes: seq<string>,
                       elements: seq<seq<nat>>, geom: seq<nat>): seq<AM.Bucket>
    requires |elements| == |geom|
    requires forall j :: 0 <= j < |elements| ==> Fits(m.shape, elements[j])
    requires forall j :: 0 <= j < |geom| ==> GeomValid(prefixes, geom[j])
    decreases |geom|
  {
    if |geom| == 0 then t
    else
      var t1 := AM.Insert(t, KeyFor(prefixes, geom[0]), AM.Element(m.toId, Map(m, elements[0])));
      InsertFaces(t1, m, prefixes, elements[1..], geom[1..])
  }

  /** Storing a boundary set keeps the buckets sorted, non-empty and validly keyed. */
  lemma {:induction false} InsertFacesShape(t: seq<AM.Bucket>, m: Mapper, prefixes: seq<string>,
                                            elements: seq<seq<nat>>, geom: seq<nat>)
    requires |elements| == |geom|
    requires forall j :: 0 <= j < |elements| ==> Fits(m.shape, elements[j])
    requires forall j :: 0 <= j < |geom| ==> GeomValid(prefixes, geom[j])
    requires AM.Sorted(t) && AM.NonEmptyBuckets(t) && KeysValid(prefixes, t)
    ensures var r := InsertFaces(t, m, prefixes, elements, geom);
            AM.Sorted(r) && AM.NonEmptyBuckets(r) && KeysValid(prefixes, r)
    decreases |geom|
  {
    if |geom| > 0 {
      var key := KeyFor(prefixes, geom[0]);
      var e := AM.Element(m.toId, Map(m, elements[0]));
      AM.InsertSorted(t, key, e);
      AM.InsertLookup(t, key, e);
      assert ValidKey(prefixes, key);
      InsertFacesShape(AM.Insert(t, key, e), m, prefixes, elements[1..], geom[1..]);
    }
  }

  /**
   * After storing a boundary set, the bucket of every valid key has gained
   * exactly the set's faces with that key's geometric index, in order, and
   * every other bucket is unchanged.
   */
  lemma {:induction false} InsertFacesLookup(t: seq<AM.Bucket>, m: Mapper, prefixes: seq<string>,
                                             elements: seq<seq<nat>>, geom: seq<nat>, k: AM.TopologyId)
    requires |elements| == |geom|
    requires forall j :: 0 <= j < |elements| ==> Fits(m.shape, elements[j])
    requires forall j :: 0 <= j < |geom| ==> GeomValid(prefixes, geom[j])
    requires AM.Sorted(t)
    ensures AM.Lookup(InsertFaces(t, m, prefixes, elements, geom), k)
              == AM.Lookup(t, k) + (if ValidKey(prefixes, k) then FacesWithGeom(m, elements, geom, k.id - 1) else [])
    decreases |geom|
  {
    if |geom| > 0 {
      var key := KeyFor(prefixes, geom[0]);
      var e := AM.Element(m.toId, Map(m, elements[0]));
      var t1 := AM.Insert(t, key, e);
      var valid := ValidKey(prefixes, k);
      var g: nat := if valid then k.id - 1 else 0;
      var hit := key == k;
      var l1 := AM.Lookup(t1, k);
      var final := AM.Lookup(InsertFaces(t1, m, prefixes, elements[1..], geom[1..]), k);
      assert l1 == AM.Lookup(t, k) + (if hit then [e] else []) by {
        AM.InsertLookup(t, key, e);
      }
      assert final == l1 + (if valid then FacesWithGeom(m, elements[1..], geom[1..], g) else []) by {
        AM.InsertSorted(t, key, e);
        InsertFacesLookup(t1, m, prefixes, elements[1..], geom[1..], k);
      }
      assert hit ==> valid && geom[0] == g by {
        KeyForIff(prefixes, geom[0], k);
      }
      assert valid ==> FacesWithGeom(m, elements, geom, g)
                       == (if hit then [e] else []) + FacesWithGeom(m, elements[1..], geom[1..], g) by {
        KeyForIff(prefixes, geom[0], k);
      }
      assert AM.Lookup(InsertFaces(t, m, prefixes, elements, geom), k) == final;
      FacesStep(AM.Lookup(t, k), l1, final, e, hit, valid,
                FacesWithGeom(m, elements, geom, g), FacesWithGeom(m, elements[1..], geom[1..], g));
    }
  }

  /** The sequence step of InsertFacesLookup: the first face, then the rest. */
  lemma FacesStep(l0: seq<AM.Element>, l1: seq<AM.Element>, final: seq<AM.Element>, e: AM.Element,
                  hit: bool, valid: bool, faces: seq<AM.Element>, rest: seq<AM.Element>)
    requires l1 == l0 + (if hit then [e] else [])
    requires final == l1 + (if valid then rest else [])
    requires valid ==> faces == (if hit then [e] else []) + rest
    requires hit ==> valid
    ensures final == l0 + (if valid then faces else [])
  {
  }

  // ---------------------------------------------------------------------
  // Processing element sets.

  /** Converter state between element sets. */
  datatype Partial = Partial(
    elements: seq<AM.Element>,
    attributes: seq<nat>,
    labels: seq<string>,
    topologies: seq<AM.Bucket>,
    overwrites: nat,
    notAssigned: nat)

  /** The error an element set raises, if any. */
  function SetError(c: Converter, es: CM.ElementSet): Option<string> {
    var name := es.elementType.name;
    var geom := es.geometricIndices;
    if |es.elements| != |geom| then Some(CountMismatchMessage)
    else if DomainMapper(c, name).None? && BoundaryMapper(c, name).Some?
            && exists j :: 0 <= j < |geom| && !GeomValid(c.prefixes, geom[j])
    then Some(TooManySurfacesMessage)
    else None
  }

  /** The labels appended after each element es. */
  function LabelChunk(c: Converter, sels: seq<CM.SelectionObject>): seq<string> {
    if |c.accepted| == 0 then CM.SelectionLabels(sels) else c.accepted
  }

  /** Attributes of a domain es: the folded selection ids, or the geometric indices. */
  function DomainFold(c: Converter, sels: seq<CM.SelectionObject>, geom: seq<nat>): (f: SF.FoldResult)
    ensures |f.attributes| == |geom|
  {
    if c.selectionsToAttributes then SF.MapSelectionsToAttributes(sels, c.accepted, geom)
    else SF.FoldResult(geom, 0, 0)
  }

  function Step(c: Converter, sels: seq<CM.SelectionObject>, st: Partial, es: CM.ElementSet): Partial
    requires SetError(c, es).None? && SetFits(c, es)
  {
    var name := es.elementType.name;
    var labels := st.labels + LabelChunk(c, sels);
    match DomainMapper(c, name)
    case Some(m) =>
      var f := DomainFold(c, sels, es.geometricIndices);
      Partial(st.elements + MapElements(m, es.elements), st.attributes + f.attributes, labels,
              st.topologies, st.overwrites + f.overwrites, st.notAssigned + f.notAssigned)
    case None =>
      match BoundaryMapper(c, name)
      case Some(m) =>
        st.(topologies := InsertFaces(st.topologies, m, c.prefixes, es.elements, es.geometricIndices),
            labels := labels)
      case None => st.(labels := labels)
  }

  /** The first n element sets, processed in order; the first error aborts. */
  function ConvertSets(c: Converter, sels: seq<CM.SelectionObject>, sets: seq<CM.ElementSet>, n: nat): (r: Result<Partial, string>)
    requires n <= |sets| && WellShaped(c, sets)
    ensures r.Success? ==> NoErrors(c, sets, n)
  {
    if n == 0 then Success(Partial([], [], [], [], 0, 0))
    else
      var r := ConvertSets(c, sels, sets, n - 1);
      if r.Failure? then r
      else
        match SetError(c, sets[n - 1])
        case Some(msg) => Failure(msg)
        case None => Success(Step(c, sels, r.value, sets[n - 1]))
  }

  // ---------------------------------------------------------------------
  // Reference definitions: what the converted mesh holds, es by es.

  /** Volume elements of the first n sets. */
  function RefElements(c: Converter, sets: seq<CM.ElementSet>, n: nat): seq<AM.Element>
    requires n <= |sets| && WellShaped(c, sets) && NoErrors(c, sets, n)
  {
    if n == 0 then []
    else
      RefElements(c, sets, n - 1)
      + match DomainMapper(c, sets[n - 1].elementType.name)
        case Some(m) => MapElements(m, sets[n - 1].elements)
        case None => []
  }

  function SetFold(c: Converter, sels: seq<CM.SelectionObject>, es: CM.ElementSet): SF.FoldResult {
    if DomainMapper(c, es.elementType.name).Some? then DomainFold(c, sels, es.geometricIndices)
    else SF.FoldResult([], 0, 0)
  }

  function RefAttributes(c: Converter, sels: seq<CM.SelectionObject>, sets: seq<CM.ElementSet>, n: nat): seq<nat>
    requires n <= |sets|
  {
    if n == 0 then [] else RefAttributes(c, sels, sets, n - 1) + SetFold(c, sels, sets[n - 1]).attributes
  }

  function RefOverwrites(c: Converter, sels: seq<CM.SelectionObject>, sets: seq<CM.ElementSet>, n: nat): nat
    requires n <= |sets|
  {
    if n == 0 then 0 else RefOverwrites(c, sels, sets, n - 1) + SetFold(c, sels, sets[n - 1]).overwrites
  }

  function RefNotAssigned(c: Converter, sels: seq<CM.SelectionObject>, sets: seq<CM.ElementSet>, n: nat): nat
    requires n <= |sets|
  {
    if n == 0 then 0 else RefNotAssigned(c, sels, sets, n - 1) + SetFold(c, sels, sets[n - 1]).notAssigned
  }

  /** Boundary faces of the first n sets whose geometric index is g, in file order. */
  function RefFaces(c: Converter, sets: seq<CM.ElementSet>, n: nat, g: nat): seq<AM.Element>
    requires n <= |sets| && WellShaped(c, sets) && NoErrors(c, sets, n)
  {
    if n == 0 then []
    else
      var es := sets[n - 1];
      RefFaces(c, sets, n - 1, g)
      + if DomainMapper(c, es.elementType.name).None? && BoundaryMapper(c, es.elementType.name).Some?
           && |es.elements| == |es.geometricIndices|
        then FacesWithGeom(BoundaryMapper(c, es.elementType.name).value, es.elements, es.geometricIndices, g)
        else []
  }

  function Repeat(chunk: seq<string>, n: nat): (r: seq<string>)
    ensures |r| == n * |chunk|
  {
    if n == 0 then [] else Repeat(chunk, n - 1) + chunk
  }

  /** Index of the first erroneous set below n, if any. */
  predicate FirstError(c: Converter, sets: seq<CM.ElementSet>, i: nat, n: nat)
    requires n <= |sets|
  {
    i < n && SetError(c, sets[i]).Some? && forall i' :: 0 <= i' < i ==> SetError(c, sets[i']).None?
  }

  /** Processing succeeds exactly when no set errs, and otherwise reports the first error. */
  lemma {:induction false} ConvertSetsOutcome(c: Converter, sels: seq<CM.SelectionObject>, sets: seq<CM.ElementSet>, n: nat)
    requires n <= |sets| && WellShaped(c, sets)
    ensures var r := ConvertSets(c, sels, sets, n);
            && (r.Success? <==> forall i :: 0 <= i < n ==> SetError(c, sets[i]).None?)
            && (r.Failure? ==> exists i: nat :: FirstError(c, sets, i, n) && SetError(c, sets[i]) == Some(r.error))
  {
    if n > 0 {
      ConvertSetsOutcome(c, sels, sets, n - 1);
      var r0 := ConvertSets(c, sels, sets, n - 1);
      if r0.Failure? {
        var i: nat :| FirstError(c, sets, i, n - 1) && SetError(c, sets[i]) == Some(r0.error);
        assert FirstError(c, sets, i, n);
      } else if SetError(c, sets[n - 1]).Some? {
        assert FirstError(c, sets, n - 1, n);
      }
    }
  }

  /** A successful run holds the reference elements, attributes, labels and counts. */
  lemma {:induction false} ConvertSetsContents(c: Converter, sels: seq<CM.SelectionObject>, sets: seq<CM.ElementSet>, n: nat)
    requires n <= |sets| && WellShaped(c, sets)
    ensures var r := ConvertSets(c, sels, sets, n);
            r.Success? ==>
              && r.value.elements == RefElements(c, sets, n)
              && r.value.attributes == RefAttributes(c, sels, sets, n)
              && r.value.labels == Repeat(LabelChunk(c, sels), n)
              && r.value.overwrites == RefOverwrites(c, sels, sets, n)
              && r.value.notAssigned == RefNotAssigned(c, sels, sets, n)
  {
    if n > 0 {
      ConvertSetsContents(c, sels, sets, n - 1);
    }
  }

  /**
   * In a successful run the surface topologies are sorted, hold no empty
   * bucket, and the bucket of every valid key holds exactly the boundary
   * faces of that key's geometric index, in file order.
   */
  lemma {:induction false} ConvertSetsTopology(c: Converter, sels: seq<CM.SelectionObject>, sets: seq<CM.ElementSet>, n: nat)
    requires n <= |sets| && WellShaped(c, sets)
    ensures var r := ConvertSets(c, sels, sets, n);
            r.Success? ==> TopologyAgrees(c, sets, n, r.value.topologies)
  {
    if n > 0 {
      ConvertSetsTopology(c, sels, sets, n - 1);
      var r0 := ConvertSets(c, sels, sets, n - 1);
      if r0.Success? && SetError(c, sets[n - 1]).None? {
        assert NoErrors(c, sets, n);
        TopologyStep(c, sels, sets, n, r0.value);
        assert ConvertSets(c, sels, sets, n) == Success(Step(c, sels, r0.value, sets[n - 1]));
      } else {
        assert ConvertSets(c, sels, sets, n).Failure?;
      }
    }
  }

  /**
   * The buckets t are sorted, hold no empty bucket, and the bucket of every
   * valid key holds exactly the reference faces of the first n sets.
   */
  ghost predicate TopologyAgrees(c: Converter, sets: seq<CM.ElementSet>, n: nat, t: seq<AM.Bucket>)
    requires n <= |sets| && WellShaped(c, sets) && NoErrors(c, sets, n)
  {
    && AM.Sorted(t)
    && AM.NonEmptyBuckets(t)
    && KeysValid(c.prefixes, t)
    && forall k :: AM.Lookup(t, k) == if ValidKey(c.prefixes, k) then RefFaces(c, sets, n, k.id - 1) else []
  }

  /** Converting the n-th set keeps the buckets in agreement with the reference faces. */
  lemma TopologyStep(c: Converter, sels: seq<CM.SelectionObject>, sets: seq<CM.ElementSet>, n: nat, st: Partial)
    requires 0 < n <= |sets| && WellShaped(c, sets) && NoErrors(c, sets, n)
    requires TopologyAgrees(c, sets, n - 1, st.topologies)
    ensures SetFits(c, sets[n - 1])
    ensures TopologyAgrees(c, sets, n, Step(c, sels, st, sets[n - 1]).topologies)
  {
    var es := sets[n - 1];
    assert NoErrors(c, sets, n - 1);
    var t := Step(c, sels, st, es).topologies;
    StepTopologyShape(c, sels, st, es);
    forall k
      ensures AM.Lookup(t, k) == if ValidKey(c.prefixes, k) then RefFaces(c, sets, n, k.id - 1) else []
    {
      RefFacesStep(c, sels, sets, n, st, k);
    }
  }

  /** The bucket of a key after the n-th set matches the reference faces when it did before. */
  lemma RefFacesStep(c: Converter, sels: seq<CM.SelectionObject>, sets: seq<CM.ElementSet>, n: nat, st: Partial,
                     k: AM.TopologyId)
    requires 0 < n <= |sets| && WellShaped(c, sets) && NoErrors(c, sets, n)
    requires AM.Sorted(st.topologies)
    requires AM.Lookup(st.topologies, k) == if ValidKey(c.prefixes, k) then RefFaces(c, sets, n - 1, k.id - 1) else []
    ensures AM.Lookup(Step(c, sels, st, sets[n - 1]).topologies, k)
              == if ValidKey(c.prefixes, k) then RefFaces(c, sets, n, k.id - 1) else []
  {
    assert NoErrors(c, sets, n - 1);
    StepTopologyLookup(c, sels, st, sets[n - 1], k);
  }

  /** One step keeps the topology buckets sorted, non-empty and validly keyed. */
  lemma StepTopologyShape(c: Converter, sels: seq<CM.SelectionObject>, st: Partial, es: CM.ElementSet)
    requires SetError(c, es).None? && SetFits(c, es)
    requires AM.Sorted(st.topologies) && AM.NonEmptyBuckets(st.topologies) && KeysValid(c.prefixes, st.topologies)
    ensures var t := Step(c, sels, st, es).topologies;
            AM.Sorted(t) && AM.NonEmptyBuckets(t) && KeysValid(c.prefixes, t)
  {
    var name := es.elementType.name;
    if DomainMapper(c, name).None? && BoundaryMapper(c, name).Some? {
      var m := BoundaryMapper(c, name).value;
      assert MapperFor(c, name) == Some(m);
      InsertFacesShape(st.topologies, m, c.prefixes, es.elements, es.geometricIndices);
    }
  }

  /** One step adds to the bucket of a valid key exactly the set's faces with that key's index. */
  lemma StepTopologyLookup(c: Converter, sels: seq<CM.SelectionObject>, st: Partial, es: CM.ElementSet, k: AM.TopologyId)
    requires SetError(c, es).None? && SetFits(c, es)
    requires AM.Sorted(st.topologies)
    ensures AM.Lookup(Step(c, sels, st, es).topologies, k)
              == AM.Lookup(st.topologies, k)
                 + if ValidKey(c.prefixes, k) && DomainMapper(c, es.elementType.name).None?
                      && BoundaryMapper(c, es.elementType.name).Some? && |es.elements| == |es.geometricIndices|
                   then FacesWithGeom(BoundaryMapper(c, es.elementType.name).value, es.elements, es.geometricIndices, k.id - 1)
                   else []
  {
    var name := es.elementType.name;
    if DomainMapper(c, name).None? && BoundaryMapper(c, name).Some? {
      var m := BoundaryMapper(c, name).value;
      assert MapperFor(c, name) == Some(m);
      InsertFacesLookup(st.topologies, m, c.prefixes, es.elements, es.geometricIndices, k);
    }
  }

  // ---------------------------------------------------------------------
  // Face selections.

  /** Elements of every bucket whose id is entity + 1, in map order. */
  function BucketsFor(t: seq<AM.Bucket>, entity: nat): seq<AM.Element> {
    if |t| == 0 then []
    else (if t[0].key.id == entity + 1 then t[0].elements else []) + BucketsFor(t[1..], entity)
  }

  function Gather(t: seq<AM.Bucket>, entities: seq<nat>): seq<AM.Element> {
    if |entities| == 0 then [] else BucketsFor(t, entities[0]) + Gather(t, entities[1..])
  }

  /** Selections of dimension 2, in file order. */
  function SurfaceSelections(sels: seq<CM.SelectionObject>): (r: seq<CM.SelectionObject>)
    ensures forall i :: 0 <= i < |r| ==> r[i].dimSize == 2 && r[i] in sels
    ensures forall s :: s in sels && s.dimSize == 2 ==> s in r
  {
    if |sels| == 0 then []
    else (if sels[0].dimSize == 2 then [sels[0]] else []) + SurfaceSelections(sels[1..])
  }

  function SurfaceGroups(sels: seq<CM.SelectionObject>, t: seq<AM.Bucket>): (r: seq<AM.SelectionSurface>)
    ensures |r| == |SurfaceSelections(sels)|
  {
    var ss := SurfaceSelections(sels);
    seq(|ss|, i requires 0 <= i < |ss| => AM.SelectionSurface(ss[i].name, Gather(t, ss[i].entities)))
  }

  /** Reference for a face selection's group: the boundary faces of each listed surface. */
  function GatherRef(c: Converter, sets: seq<CM.ElementSet>, entities: seq<nat>): seq<AM.Element>
    requires WellShaped(c, sets) && NoErrors(c, sets, |sets|)
  {
    if |entities| == 0 then []
    else RefFaces(c, sets, |sets|, entities[0]) + GatherRef(c, sets, entities[1..])
  }

  lemma SortedHeadUnique(t: seq<AM.Bucket>)
    requires AM.Sorted(t) && |t| > 0
    ensures t[0].key !in AM.Keys(t[1..])
  {
    AM.KeysMembership(t[1..], t[0].key);
    if t[0].key in AM.Keys(t[1..]) {
      var i :| 0 <= i < |t[1..]| && t[1..][i].key == t[0].key;
      assert AM.KeyLess(t[0].key, t[i + 1].key);
      AM.KeyLessStrictTotal(t[0].key, t[0].key, t[0].key);
    }
  }

  /**
   * With sorted, validly keyed buckets, the buckets with id entity + 1 are
   * exactly the bucket of entity's key.
   */
  lemma {:induction false} BucketsForLookup(prefixes: seq<string>, t: seq<AM.Bucket>, entity: nat)
    requires AM.Sorted(t) && KeysValid(prefixes, t)
    ensures BucketsFor(t, entity)
              == if GeomValid(prefixes, entity) then AM.Lookup(t, KeyFor(prefixes, entity)) else []
  {
    if |t| > 0 {
      var head := t[0].key;
      assert AM.Keys(t) == {head} + AM.Keys(t[1..]);
      assert ValidKey(prefixes, head);
      assert KeysValid(prefixes, t[1..]);
      assert AM.Sorted(t[1..]);
      BucketsForLookup(prefixes, t[1..], entity);
      if head.id == entity + 1 {
        assert head == KeyFor(prefixes, entity);
        SortedHeadUnique(t);
        AM.LookupAbsent(t[1..], head);
        assert BucketsFor(t, entity) == t[0].elements + BucketsFor(t[1..], entity);
      } else {
        assert BucketsFor(t, entity) == BucketsFor(t[1..], entity);
      }
    }
  }

  /** A failure-free run stores no face whose geometric index has no key. */
  lemma {:induction false} RefFacesInvalid(c: Converter, sets: seq<CM.ElementSet>, n: nat, g: nat)
    requires n <= |sets| && WellShaped(c, sets)
    requires forall i :: 0 <= i < n ==> SetError(c, sets[i]).None?
    requires !GeomValid(c.prefixes, g)
    ensures RefFaces(c, sets, n, g) == []
  {
    if n > 0 {
      RefFacesInvalid(c, sets, n - 1, g);
      var es := sets[n - 1];
      var name := es.elementType.name;
      if DomainMapper(c, name).None? && BoundaryMapper(c, name).Some? && |es.elements| == |es.geometricIndices| {
        assert SetFits(c, es) && SetError(c, es).None?;
        SetFacesInvalid(c, es, g);
      }
    }
  }

  /** A boundary set that passes the checks has no face under a geometric index without a key. */
  lemma SetFacesInvalid(c: Converter, es: CM.ElementSet, g: nat)
    requires SetFits(c, es) && SetError(c, es).None? && !GeomValid(c.prefixes, g)
    requires DomainMapper(c, es.elementType.name).None? && BoundaryMapper(c, es.elementType.name).Some?
    requires |es.elements| == |es.geometricIndices|
    ensures FacesWithGeom(BoundaryMapper(c, es.elementType.name).value, es.elements, es.geometricIndices, g) == []
  {
    var name := es.elementType.name;
    assert MapperFor(c, name) == BoundaryMapper(c, name);
    FacesWithGeomAbsent(BoundaryMapper(c, name).value, es.elements, es.geometricIndices, g);
  }

  lemma {:induction false} FacesWithGeomAbsent(m: Mapper, elements: seq<seq<nat>>, geom: seq<nat>, g: nat)
    requires |elements| == |geom|
    requires forall j :: 0 <= j < |elements| ==> Fits(m.shape, elements[j])
    requires forall j :: 0 <= j < |geom| ==> geom[j] != g
    ensures FacesWithGeom(m, elements, geom, g) == []
  {
    if |geom| > 0 {
      FacesWithGeomAbsent(m, elements[1..], geom[1..], g);
    }
  }

  /** The faces stored for one geometric index are the reference faces of that index. */
  lemma {:induction false} BucketsForSpec(c: Converter, sets: seq<CM.ElementSet>, t: seq<AM.Bucket>, e: nat)
    requires WellShaped(c, sets)
    requires forall i :: 0 <= i < |sets| ==> SetError(c, sets[i]).None?
    requires AM.Sorted(t) && KeysValid(c.prefixes, t)
    requires forall k :: AM.Lookup(t, k) == if ValidKey(c.prefixes, k) then RefFaces(c, sets, |sets|, k.id - 1) else []
    ensures BucketsFor(t, e) == RefFaces(c, sets, |sets|, e)
  {
    BucketsForLookup(c.prefixes, t, e);
    if !GeomValid(c.prefixes, e) {
      RefFacesInvalid(c, sets, |sets|, e);
    } else {
      var k := KeyFor(c.prefixes, e);
      assert ValidKey(c.prefixes, k) && k.id - 1 == e;
      assert AM.Lookup(t, k) == RefFaces(c, sets, |sets|, e);
    }
  }

  lemma {:induction false} GatherSpec(c: Converter, sets: seq<CM.ElementSet>, t: seq<AM.Bucket>, entities: seq<nat>)
    requires WellShaped(c, sets)
    requires forall i :: 0 <= i < |sets| ==> SetError(c, sets[i]).None?
    requires AM.Sorted(t) && KeysValid(c.prefixes, t)
    requires forall k :: AM.Lookup(t, k) == if ValidKey(c.prefixes, k) then RefFaces(c, sets, |sets|, k.id - 1) else []
    ensures Gather(t, entities) == GatherRef(c, sets, entities)
  {
    if |entities| > 0 {
      BucketsForSpec(c, sets, t, entities[0]);
      GatherSpec(c, sets, t, entities[1..]);
    }
  }

  /** Each face selection's group holds the reference faces of its surfaces. */
  lemma SurfaceGroupsSpec(c: Converter, sels: seq<CM.SelectionObject>, sets: seq<CM.ElementSet>, t: seq<AM.Bucket>)
    requires WellShaped(c, sets)
    requires forall i :: 0 <= i < |sets| ==> SetError(c, sets[i]).None?
    requires AM.Sorted(t) && KeysValid(c.prefixes, t)
    requires forall k :: AM.Lookup(t, k) == if ValidKey(c.prefixes, k) then RefFaces(c, sets, |sets|, k.id - 1) else []
    ensures var ss := SurfaceSelections(sels);
            var groups := SurfaceGroups(sels, t);
            forall i :: 0 <= i < |ss| ==>
              groups[i].name == ss[i].name && groups[i].elements == GatherRef(c, sets, ss[i].entities)
  {
    var ss := SurfaceSelections(sels);
    var groups := SurfaceGroups(sels, t);
    forall i | 0 <= i < |ss|
      ensures groups[i].name == ss[i].name && groups[i].elements == GatherRef(c, sets, ss[i].entities)
    {
      assert groups[i].elements == Gather(t, ss[i].entities);
      GatherSpec(c, sets, t, ss[i].entities);
    }
  }

  // ---------------------------------------------------------------------
  // The whole conversion.

  datatype Converted<R> = Converted(mesh: AM.Mesh<R>, overwrites: nat, notAssigned: nat)

  /** The message raised when an allowlist leaves elements without a selection. */
  function CoverageMessage(sels: seq<CM.SelectionObject>): string {
    CoverageMessageBase
    + if |sels| == 0 then " No selections detected in comsol file."
      else " Selections detected in comsol file follow" + LabelList(sels)
  }

  function LabelList(sels: seq<CM.SelectionObject>): string {
    if |sels| == 0 then "" else ", " + sels[0].name + LabelList(sels[1..])
  }

  function Convert<R>(c: Converter, mesh: CM.Mesh<R>): (r: Result<Converted<R>, string>)
    requires WellShaped(c, mesh.meshObject.elementSets)
    ensures var sets := mesh.meshObject.elementSets;
            var sels := mesh.selections;
            r.Success? <==>
              && (forall i :: 0 <= i < |sets| ==> SetError(c, sets[i]).None?)
              && !(|c.accepted| > 0 && RefNotAssigned(c, sels, sets, |sets|) > 0)
    ensures var sets := mesh.meshObject.elementSets;
            r.Failure? ==>
              if exists i :: 0 <= i < |sets| && SetError(c, sets[i]).Some?
              then exists i: nat :: FirstError(c, sets, i, |sets|) && SetError(c, sets[i]) == Some(r.error)
              else r.error == CoverageMessage(mesh.selections)
    ensures var sets := mesh.meshObject.elementSets;
            var sels := mesh.selections;
            r.Success? ==>
              && r.value.mesh.nodes == mesh.meshObject.coordinates
              && r.value.mesh.elements == RefElements(c, sets, |sets|)
              && r.value.mesh.attributes == RefAttributes(c, sels, sets, |sets|)
              && r.value.mesh.attributeLabels == Repeat(LabelChunk(c, sels), |sets|)
              && r.value.overwrites == RefOverwrites(c, sels, sets, |sets|)
              && r.value.notAssigned == RefNotAssigned(c, sels, sets, |sets|)
    ensures var sets := mesh.meshObject.elementSets;
            r.Success? ==>
              && AM.Sorted(r.value.mesh.surfaceTopologies)
              && AM.NonEmptyBuckets(r.value.mesh.surfaceTopologies)
              && (forall k :: AM.Lookup(r.value.mesh.surfaceTopologies, k)
                               == if ValidKey(c.prefixes, k) then RefFaces(c, sets, |sets|, k.id - 1) else [])
    ensures var sets := mesh.meshObject.elementSets;
            var ss := SurfaceSelections(mesh.selections);
            r.Success? ==>
              && |r.value.mesh.selectionSurfaceTopologies| == |ss|
              && forall i :: 0 <= i < |ss| ==>
                   r.value.mesh.selectionSurfaceTopologies[i].name == ss[i].name
                   && r.value.mesh.selectionSurfaceTopologies[i].elements == GatherRef(c, sets, ss[i].entities)
  {
    var sets := mesh.meshObject.elementSets;
    var sels := mesh.selections;
    ConvertSetsOutcome(c, sels, sets, |sets|);
    ConvertSetsContents(c, sels, sets, |sets|);
    ConvertSetsTopology(c, sels, sets, |sets|);
    var r := ConvertSets(c, sels, sets, |sets|);
    if r.Failure? then Failure(r.error)
    else if r.value.notAssigned > 0 && |c.accepted| > 0 then Failure(CoverageMessage(sels))
    else
      var st := r.value;
      var ss := SurfaceSelections(sels);
      var groups := SurfaceGroups(sels, st.topologies);
      SurfaceGroupsSpec(c, sels, sets, st.topologies);
      Success(Converted(AM.Mesh(mesh.meshObject.coordinates, st.elements, st.labels, st.attributes,
                                st.topologies, groups),
                        st.overwrites, st.notAssigned))
  }

  // ---------------------------------------------------------------------
  // Facts about the reference definitions.

  /** In a run without errors: one attribute per volume element, whichever way attributes are made. */
  lemma {:induction false} AttributesPerElement(c: Converter, sels: seq<CM.SelectionObject>, sets: seq<CM.ElementSet>, n: nat)
    requires n <= |sets| && WellShaped(c, sets)
    requires forall i :: 0 <= i < n ==> SetError(c, sets[i]).None?
    ensures |RefAttributes(c, sels, sets, n)| == |RefElements(c, sets, n)|
  {
    if n > 0 {
      AttributesPerElement(c, sels, sets, n - 1);
      var es := sets[n - 1];
      assert |es.elements| == |es.geometricIndices|;
      match DomainMapper(c, es.elementType.name)
      case Some(m) =>
        assert |MapElements(m, es.elements)| == |SetFold(c, sels, es).attributes|;
      case None =>
    }
  }

  /**
   * Without selection folding there are no overwrites and no unassigned
   * elements, so the coverage error cannot occur.
   */
  lemma {:induction false} NoFoldNoCounts(c: Converter, sels: seq<CM.SelectionObject>, sets: seq<CM.ElementSet>, n: nat)
    requires n <= |sets| && !c.selectionsToAttributes
    ensures RefOverwrites(c, sels, sets, n) == 0 && RefNotAssigned(c, sels, sets, n) == 0
  {
    if n > 0 {
      NoFoldNoCounts(c, sels, sets, n - 1);
    }
  }
}
