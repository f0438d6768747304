/**
 * The target (Aero) mesh record the converter builds and the generators print.
 *
 * Surface topologies are an ordered map from (prefix, surface id) to the
 * boundary elements of that surface. The map is modelled as a sequence of
 * buckets kept strictly ascending by key: by prefix (character by character,
 * a proper prefix first), then by id, which is how an ordered map keyed by a
 * (string, integer) pair iterates.
 */
module AeroMesh {

  /** A target element: the Aero type id and its 1-based node ids. */
  datatype Element = Element(typeId: nat, connectivity: seq<nat>)

  datatype TopologyId = TopologyId(prefix: string, id: nat)

  datatype Bucket = Bucket(key: TopologyId, elements: seq<Element>)

  /** A named group of boundary elements gathered for one face selection. */
  datatype SelectionSurface = SelectionSurface(name: string, elements: seq<Element>)

  datatype Mesh<R> = Mesh(
    nodes: seq<seq<R>>,
    elements: seq<Element>,
    attributeLabels: seq<string>,
    attributes: seq<nat>,
    surfaceTopologies: seq<Bucket>,
    selectionSurfaceTopologies: seq<SelectionSurface>)

  /** Lexicographic order on strings, comparing characters by code. */
  predicate StringLess(a: string, b: string)
    decreases |a|
  {
    if |a| == 0 then |b| > 0
    else if |b| == 0 then false
    else if a[0] < b[0] then true
    else if a[0] == b[0] then StringLess(a[1..], b[1..])
    else false
  }

  lemma {:induction false} StringLessIrreflexive(a: string)
    ensures !StringLess(a, a)
    decreases |a|
  {
    if |a| > 0 {
      StringLessIrreflexive(a[1..]);
    }
  }

  lemma {:induction false} StringLessTransitive(a: string, b: string, c: string)
    requires StringLess(a, b) && StringLess(b, c)
    ensures StringLess(a, c)
    decreases |a|
  {
    if |a| > 0 && |b| > 0 && |c| > 0 && a[0] == b[0] && b[0] == c[0] {
      StringLessTransitive(a[1..], b[1..], c[1..]);
    }
  }

  lemma {:induction false} StringLessTotal(a: string, b: string)
    requires a != b
    ensures StringLess(a, b) || StringLess(b, a)
    decreases |a|
  {
    if |a| > 0 && |b| > 0 && a[0] == b[0] {
      assert a == [a[0]] + a[1..] && b == [b[0]] + b[1..];
      StringLessTotal(a[1..], b[1..]);
    }
  }

  predicate KeyLess(a: TopologyId, b: TopologyId) {
    StringLess(a.prefix, b.prefix) || (a.prefix == b.prefix && a.id < b.id)
  }

  lemma KeyLessStrictTotal(a: TopologyId, b: TopologyId, c: TopologyId)
    ensures !KeyLess(a, a)
    ensures KeyLess(a, b) && KeyLess(b, c) ==> KeyLess(a, c)
    ensures a != b ==> KeyLess(a, b) || KeyLess(b, a)
    ensures KeyLess(a, b) ==> !KeyLess(b, a)
  {
    StringLessIrreflexive(a.prefix);
    if KeyLess(a, b) && KeyLess(b, c) && StringLess(a.prefix, b.prefix) && StringLess(b.prefix, c.prefix) {
      StringLessTransitive(a.prefix, b.prefix, c.prefix);
    }
    if a != b && a.prefix != b.prefix {
      StringLessTotal(a.prefix, b.prefix);
    }
    if KeyLess(a, b) && KeyLess(b, a) && StringLess(a.prefix, b.prefix) && StringLess(b.prefix, a.prefix) {
      StringLessTransitive(a.prefix, b.prefix, a.prefix);
    }
  }

  /** Buckets strictly ascending by key, hence one bucket per key. */
  predicate Sorted(t: seq<Bucket>) {
    forall i, j :: 0 <= i < j < |t| ==> KeyLess(t[i].key, t[j].key)
  }

  function Keys(t: seq<Bucket>): set<TopologyId> {
    if |t| == 0 then {} else {t[0].key} + Keys(t[1..])
  }

  lemma {:induction false} KeysMembership(t: seq<Bucket>, x: TopologyId)
    ensures x in Keys(t) <==> exists i :: 0 <= i < |t| && t[i].key == x
  {
    if |t| > 0 {
      KeysMembership(t[1..], x);
      if exists i :: 0 <= i < |t| && t[i].key == x {
        var i :| 0 <= i < |t| && t[i].key == x;
        if i > 0 {
          assert t[1..][i - 1].key == x;
        }
      }
      if exists i :: 0 <= i < |t[1..]| && t[1..][i].key == x {
        var i :| 0 <= i < |t[1..]| && t[1..][i].key == x;
        assert t[i + 1].key == x;
      }
    }
  }

  /** Every bucket of the map was created by an insertion, so none is empty. */
  predicate NonEmptyBuckets(t: seq<Bucket>) {
    forall i :: 0 <= i < |t| ==> |t[i].elements| > 0
  }

  /** The elements stored under key k, or none when k is absent. */
  function Lookup(t: seq<Bucket>, k: TopologyId): seq<Element> {
    if |t| == 0 then []
    else if t[0].key == k then t[0].elements
    else Lookup(t[1..], k)
  }

  lemma {:induction false} LookupAbsent(t: seq<Bucket>, k: TopologyId)
    requires k !in Keys(t)
    ensures Lookup(t, k) == []
  {
    if |t| > 0 {
      LookupAbsent(t[1..], k);
    }
  }

  /**
   * Appends e to the bucket of key k, creating the bucket at its ordered
   * place when k is new (the map's `operator[]` followed by `push_back`).
   */
  function Insert(t: seq<Bucket>, k: TopologyId, e: Element): (r: seq<Bucket>)
    ensures Keys(r) == Keys(t) + {k}
    decreases |t|
  {
    if |t| == 0 then
      [Bucket(k, [e])]
    else if t[0].key == k then
      var r := [Bucket(k, t[0].elements + [e])] + t[1..];
      assert r[1..] == t[1..];
      r
    else if KeyLess(k, t[0].key) then
      var r := [Bucket(k, [e])] + t;
      assert r[1..] == t;
      r
    else
      var r := [t[0]] + Insert(t[1..], k, e);
      assert r[1..] == Insert(t[1..], k, e);
      r
  }

  /** Insertion keeps the buckets strictly ascending. */
  lemma {:induction false} InsertSorted(t: seq<Bucket>, k: TopologyId, e: Element)
    requires Sorted(t)
    ensures Sorted(Insert(t, k, e))
    decreases |t|
  {
    var r := Insert(t, k, e);
    if |t| == 0 || t[0].key == k {
    } else if KeyLess(k, t[0].key) {
      forall i, j | 0 <= i < j < |r| ensures KeyLess(r[i].key, r[j].key) {
        if i == 0 && j > 1 {
          KeyLessStrictTotal(k, t[0].key, t[j - 1].key);
        }
      }
    } else {
      KeyLessStrictTotal(t[0].key, k, k);
      var rest := Insert(t[1..], k, e);
      InsertSorted(t[1..], k, e);
      assert r == [t[0]] + rest;
      forall i, j | 0 <= i < j < |r| ensures KeyLess(r[i].key, r[j].key) {
        if i == 0 {
          var x := rest[j - 1].key;
          KeysMembership(rest, x);
          if x != k {
            KeysMembership(t[1..], x);
            var m :| 0 <= m < |t[1..]| && t[1..][m].key == x;
            assert t[m + 1].key == x;
          }
        }
      }
    }
  }

  lemma {:induction false} SortedHeadNotLater(t: seq<Bucket>, k: TopologyId)
    requires Sorted(t) && |t| > 0 && KeyLess(k, t[0].key)
    ensures k !in Keys(t)
  {
    forall i | 0 <= i < |t| ensures t[i].key != k {
      KeyLessStrictTotal(k, t[0].key, t[i].key);
    }
    KeysMembership(t, k);
  }

  /**
   * Insertion appends e to the bucket of k, leaves every other bucket as it
   * was, and adds a bucket exactly when k was absent.
   */
  lemma {:induction false} InsertLookup(t: seq<Bucket>, k: TopologyId, e: Element)
    requires Sorted(t)
    ensures Lookup(Insert(t, k, e), k) == Lookup(t, k) + [e]
    ensures forall k' :: k' != k ==> Lookup(Insert(t, k, e), k') == Lookup(t, k')
    ensures |Insert(t, k, e)| == |t| + (if k in Keys(t) then 0 else 1)
    ensures NonEmptyBuckets(t) ==> NonEmptyBuckets(Insert(t, k, e))
    decreases |t|
  {
    var r := Insert(t, k, e);
    if |t| == 0 {
    } else if t[0].key == k {
      assert r[1..] == t[1..];
    } else if KeyLess(k, t[0].key) {
      assert r[1..] == t;
      SortedHeadNotLater(t, k);
      LookupAbsent(t, k);
    } else {
      InsertLookup(t[1..], k, e);
      assert r[1..] == Insert(t[1..], k, e);
    }
  }
}
