/**
 * Folding COMSOL selections into Aero attributes, for the elements of one
 * domain element set.
 *
 * Attributes start as the elements' geometric indices. Selections are then
 * processed in file order; face selections (dimension 2) are skipped. A
 * selection's id is its file position, or, when an allowlist of labels is
 * given, the position of its label in the allowlist (selections whose label
 * is not listed are skipped). Every element whose geometric index is one of
 * the selection's entities gets id + 1; later selections overwrite earlier
 * ones, and each write to an element that was already written counts as an
 * overwrite. Elements no selection wrote are counted as not assigned and
 * keep their geometric index.
 */
module SelectionFold {
  import opened Wrappers
  import opened ComsolMesh

  /** Position of the first occurrence of x (what `std::find` returns). */
  function IndexOf(s: seq<string>, x: string): (i: nat)
    requires x in s
    ensures i < |s| && s[i] == x
    ensures forall k :: 0 <= k < i ==> s[k] != x
  {
    if s[0] == x then 0 else 1 + IndexOf(s[1..], x)
  }

  /** The id selection i writes (before adding 1), or None when it is skipped. */
  function SelectionId(sels: seq<SelectionObject>, accepted: seq<string>, i: nat): Option<nat>
    requires i < |sels|
  {
    if sels[i].dimSize == 2 then None
    else if |accepted| != 0 then
      if sels[i].name in accepted then Some(IndexOf(accepted, sels[i].name)) else None
    else Some(i)
  }

  /** Working state: attribute per element, whether a selection set it, overwrites so far. */
  datatype FoldState = FoldState(ids: seq<nat>, isSet: seq<bool>, overwrites: nat)

  predicate Shaped(st: FoldState, n: nat) {
    |st.ids| == n && |st.isSet| == n
  }

  function CountTrue(b: seq<bool>): nat {
    if |b| == 0 then 0 else (if b[0] then 1 else 0) + CountTrue(b[1..])
  }

  function CountFalse(b: seq<bool>): nat {
    if |b| == 0 then 0 else (if b[0] then 0 else 1) + CountFalse(b[1..])
  }

  /** Number of elements whose geometric index is e. */
  function CountEq(geom: seq<nat>, e: nat): nat {
    if |geom| == 0 then 0 else (if geom[0] == e then 1 else 0) + CountEq(geom[1..], e)
  }

  /** Number of already-set elements whose geometric index is e. */
  function CountSetEq(geom: seq<nat>, isSet: seq<bool>, e: nat): nat
    requires |isSet| == |geom|
  {
    if |geom| == 0 then 0
    else (if geom[0] == e && isSet[0] then 1 else 0) + CountSetEq(geom[1..], isSet[1..], e)
  }

  /** The inner loop over elements for one entity of a selection. */
  function AssignEntity(geom: seq<nat>, st: FoldState, entity: nat, value: nat): (r: FoldState)
    requires Shaped(st, |geom|)
    ensures Shaped(r, |geom|)
  {
    FoldState(
      seq(|geom|, j requires 0 <= j < |geom| => if geom[j] == entity then value else st.ids[j]),
      seq(|geom|, j requires 0 <= j < |geom| => geom[j] == entity || st.isSet[j]),
      st.overwrites + CountSetEq(geom, st.isSet, entity))
  }

  /** The loop over a selection's entities, in order. */
  function AssignEntities(geom: seq<nat>, st: FoldState, entities: seq<nat>, value: nat): (r: FoldState)
    requires Shaped(st, |geom|)
    ensures Shaped(r, |geom|)
    decreases |entities|
  {
    if |entities| == 0 then st
    else AssignEntities(geom, AssignEntity(geom, st, entities[0], value), entities[1..], value)
  }

  /** State after processing the first k selections. */
  function FoldUpTo(sels: seq<SelectionObject>, accepted: seq<string>, geom: seq<nat>, k: nat): (st: FoldState)
    requires k <= |sels|
    ensures Shaped(st, |geom|)
  {
    if k == 0 then FoldState(geom, seq(|geom|, j => false), 0)
    else
      var st := FoldUpTo(sels, accepted, geom, k - 1);
      match SelectionId(sels, accepted, k - 1)
      case None => st
      case Some(id) => AssignEntities(geom, st, sels[k - 1].entities, id + 1)
  }

  // ---------------------------------------------------------------------
  // Reference definitions, independent of the element-by-element state.

  /** Id of the last of the first k selections that is processed and claims g. */
  function LastClaim(sels: seq<SelectionObject>, accepted: seq<string>, k: nat, g: nat): Option<nat>
    requires k <= |sels|
  {
    if k == 0 then None
    else
      match SelectionId(sels, accepted, k - 1)
      case Some(id) => if g in sels[k - 1].entities then Some(id) else LastClaim(sels, accepted, k - 1, g)
      case None => LastClaim(sels, accepted, k - 1, g)
  }

  /** Number of (entity occurrence, element) matches of one selection. */
  function EntityMatches(geom: seq<nat>, entities: seq<nat>): nat {
    if |entities| == 0 then 0 else CountEq(geom, entities[0]) + EntityMatches(geom, entities[1..])
  }

  /** Total writes the first k selections perform. */
  function Matches(sels: seq<SelectionObject>, accepted: seq<string>, geom: seq<nat>, k: nat): nat
    requires k <= |sels|
  {
    if k == 0 then 0
    else Matches(sels, accepted, geom, k - 1)
         + (if SelectionId(sels, accepted, k - 1).Some? then EntityMatches(geom, sels[k - 1].entities) else 0)
  }

  /** Number of elements no processed selection claims. */
  function Unclaimed(sels: seq<SelectionObject>, accepted: seq<string>, geom: seq<nat>): nat {
    if |geom| == 0 then 0
    else (if LastClaim(sels, accepted, |sels|, geom[0]).None? then 1 else 0)
         + Unclaimed(sels, accepted, geom[1..])
  }

  /** The attribute an element with geometric index g ends with. */
  function FinalAttribute(sels: seq<SelectionObject>, accepted: seq<string>, g: nat): nat {
    match LastClaim(sels, accepted, |sels|, g)
    case Some(id) => id + 1
    case None => g
  }

  // ---------------------------------------------------------------------
  // The fold and its specification.

  datatype FoldResult = FoldResult(attributes: seq<nat>, overwrites: nat, notAssigned: nat)

  /**
   * The attributes of one domain element set, with the overwrite and
   * not-assigned counts it adds to the converter's totals.
   */
  function MapSelectionsToAttributes(sels: seq<SelectionObject>, accepted: seq<string>, geom: seq<nat>): (r: FoldResult)
    ensures |r.attributes| == |geom|
    ensures forall j :: 0 <= j < |geom| ==> r.attributes[j] == FinalAttribute(sels, accepted, geom[j])
    ensures r.notAssigned == Unclaimed(sels, accepted, geom)
    ensures r.notAssigned <= |geom|
    ensures r.overwrites + (|geom| - r.notAssigned) == Matches(sels, accepted, geom, |sels|)
  {
    var st := FoldUpTo(sels, accepted, geom, |sels|);
    FoldUpToSpec(sels, accepted, geom, |sels|);
    CountFalseUnclaimed(sels, accepted, geom, st.isSet);
    CountTrueFalse(st.isSet);
    FoldResult(st.ids, st.overwrites, CountFalse(st.isSet))
  }

  lemma {:induction false} CountTrueFalse(b: seq<bool>)
    ensures CountTrue(b) + CountFalse(b) == |b|
  {
    if |b| > 0 {
      CountTrueFalse(b[1..]);
    }
  }

  /** One entity's writes: every match either sets a fresh element or is an overwrite. */
  lemma {:induction false} CountAfterAssign(geom: seq<nat>, isSet: seq<bool>, isSet': seq<bool>, e: nat)
    requires |isSet| == |geom| && |isSet'| == |geom|
    requires forall j :: 0 <= j < |geom| ==> isSet'[j] == (geom[j] == e || isSet[j])
    ensures CountTrue(isSet') + CountSetEq(geom, isSet, e) == CountTrue(isSet) + CountEq(geom, e)
  {
    if |geom| > 0 {
      CountAfterAssign(geom[1..], isSet[1..], isSet'[1..], e);
    }
  }

  lemma {:induction false} AssignEntitiesSpec(geom: seq<nat>, st: FoldState, entities: seq<nat>, value: nat)
    requires Shaped(st, |geom|)
    ensures var r := AssignEntities(geom, st, entities, value);
            && (forall j :: 0 <= j < |geom| ==> r.isSet[j] == (st.isSet[j] || geom[j] in entities))
            && (forall j :: 0 <= j < |geom| ==> r.ids[j] == if geom[j] in entities then value else st.ids[j])
            && r.overwrites + CountTrue(r.isSet) == st.overwrites + CountTrue(st.isSet) + EntityMatches(geom, entities)
    decreases |entities|
  {
    if |entities| > 0 {
      var st1 := AssignEntity(geom, st, entities[0], value);
      CountAfterAssign(geom, st.isSet, st1.isSet, entities[0]);
      AssignEntitiesSpec(geom, st1, entities[1..], value);
      forall j | 0 <= j < |geom|
        ensures geom[j] in entities <==> geom[j] == entities[0] || geom[j] in entities[1..]
      {
        assert entities == [entities[0]] + entities[1..];
      }
    }
  }

  /** The state st records, per element, the last claim among the first k selections, and counts their matches. */
  predicate FoldAgrees(sels: seq<SelectionObject>, accepted: seq<string>, geom: seq<nat>, k: nat, st: FoldState)
    requires k <= |sels| && Shaped(st, |geom|)
  {
    && (forall j :: 0 <= j < |geom| ==> st.isSet[j] == LastClaim(sels, accepted, k, geom[j]).Some?)
    && (forall j :: 0 <= j < |geom| ==>
          st.ids[j] == match LastClaim(sels, accepted, k, geom[j]) case Some(id) => id + 1 case None => geom[j])
    && st.overwrites + CountTrue(st.isSet) == Matches(sels, accepted, geom, k)
  }

  /** The fold after k selections agrees with the reference definitions. */
  lemma {:induction false} FoldUpToSpec(sels: seq<SelectionObject>, accepted: seq<string>, geom: seq<nat>, k: nat)
    requires k <= |sels|
    ensures FoldAgrees(sels, accepted, geom, k, FoldUpTo(sels, accepted, geom, k))
  {
    if k == 0 {
      FoldStart(sels, accepted, geom);
    } else {
      FoldUpToSpec(sels, accepted, geom, k - 1);
      var st := FoldUpTo(sels, accepted, geom, k - 1);
      match SelectionId(sels, accepted, k - 1)
      case None =>
        FoldSkipStep(sels, accepted, geom, k, st);
      case Some(id) =>
        FoldClaimStep(sels, accepted, geom, k, st, id);
    }
  }

  /** Before any selection, nothing is claimed and every element keeps its geometric index. */
  lemma FoldStart(sels: seq<SelectionObject>, accepted: seq<string>, geom: seq<nat>)
    ensures FoldAgrees(sels, accepted, geom, 0, FoldUpTo(sels, accepted, geom, 0))
  {
    var st := FoldUpTo(sels, accepted, geom, 0);
    CountNoneTrue(st.isSet);
    forall j | 0 <= j < |geom|
      ensures LastClaim(sels, accepted, 0, geom[j]).None?
    {
    }
  }

  /** A selection that claims nothing leaves the state as it was, and it still agrees. */
  lemma FoldSkipStep(sels: seq<SelectionObject>, accepted: seq<string>, geom: seq<nat>, k: nat, st: FoldState)
    requires 0 < k <= |sels| && SelectionId(sels, accepted, k - 1).None? && Shaped(st, |geom|)
    requires FoldAgrees(sels, accepted, geom, k - 1, st)
    ensures FoldAgrees(sels, accepted, geom, k, st)
  {
    forall j | 0 <= j < |geom|
      ensures LastClaim(sels, accepted, k, geom[j]) == LastClaim(sels, accepted, k - 1, geom[j])
    {
    }
  }

  /** A selection that claims its entities moves the fold from k - 1 selections to k. */
  lemma FoldClaimStep(sels: seq<SelectionObject>, accepted: seq<string>, geom: seq<nat>, k: nat, st: FoldState, id: nat)
    requires 0 < k <= |sels| && SelectionId(sels, accepted, k - 1) == Some(id) && Shaped(st, |geom|)
    requires FoldAgrees(sels, accepted, geom, k - 1, st)
    ensures FoldAgrees(sels, accepted, geom, k, AssignEntities(geom, st, sels[k - 1].entities, id + 1))
  {
    var entities := sels[k - 1].entities;
    var r := AssignEntities(geom, st, entities, id + 1);
    AssignEntitiesSpec(geom, st, entities, id + 1);
    forall j | 0 <= j < |geom|
      ensures r.isSet[j] == LastClaim(sels, accepted, k, geom[j]).Some?
      ensures r.ids[j] == match LastClaim(sels, accepted, k, geom[j]) case Some(id) => id + 1 case None => geom[j]
    {
      var g := geom[j];
      assert LastClaim(sels, accepted, k, g) == if g in entities then Some(id) else LastClaim(sels, accepted, k - 1, g);
    }
    assert r.overwrites + CountTrue(r.isSet) == Matches(sels, accepted, geom, k);
  }

  lemma {:induction false} CountNoneTrue(b: seq<bool>)
    requires forall j :: 0 <= j < |b| ==> !b[j]
    ensures CountTrue(b) == 0
  {
    if |b| > 0 {
      CountNoneTrue(b[1..]);
    }
  }

  lemma {:induction false} CountFalseUnclaimed(sels: seq<SelectionObject>, accepted: seq<string>, geom: seq<nat>, isSet: seq<bool>)
    requires |isSet| == |geom|
    requires forall j :: 0 <= j < |geom| ==> isSet[j] == LastClaim(sels, accepted, |sels|, geom[j]).Some?
    ensures CountFalse(isSet) == Unclaimed(sels, accepted, geom)
  {
    if |geom| > 0 {
      CountFalseUnclaimed(sels, accepted, geom[1..], isSet[1..]);
    }
  }

  /**
   * Last writer wins: when processed selection i claims g and no later
   * processed selection below k does, g ends with i's id.
   */
  lemma {:induction false} LastClaimIsLastWriter(sels: seq<SelectionObject>, accepted: seq<string>, k: nat, g: nat, i: nat)
    requires i < k <= |sels|
    requires SelectionId(sels, accepted, i).Some? && g in sels[i].entities
    requires forall i' :: i < i' < k ==> !(SelectionId(sels, accepted, i').Some? && g in sels[i'].entities)
    ensures LastClaim(sels, accepted, k, g) == SelectionId(sels, accepted, i)
    decreases k
  {
    if k - 1 != i {
      LastClaimIsLastWriter(sels, accepted, k - 1, g, i);
    }
  }

  /** An element stays unclaimed exactly when no processed selection lists its index. */
  lemma {:induction false} LastClaimNone(sels: seq<SelectionObject>, accepted: seq<string>, k: nat, g: nat)
    requires k <= |sels|
    ensures LastClaim(sels, accepted, k, g).None? <==>
            forall i :: 0 <= i < k ==> !(SelectionId(sels, accepted, i).Some? && g in sels[i].entities)
    decreases k
  {
    if k > 0 {
      LastClaimNone(sels, accepted, k - 1, g);
    }
  }
}
