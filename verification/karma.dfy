/**
 * The few Karma generators the Aero grammars are built from, each reduced
 * to what it writes and whether it succeeds.
 *
 * Karma does not take output back: a sequence `a << b` whose b fails keeps
 * what a wrote. Only the alternative `a | eps` buffers a, and drops its
 * output when a fails. The list `a % b` is Karma's default, relaxed list:
 * every element of the container is tried in turn; an element whose
 * generator fails is skipped, but what that generator wrote before failing
 * stays; the separator is written before the next element that succeeds;
 * output after the last success (buffered by the list) is dropped. The list
 * fails only when no element succeeds, an empty container included.
 */
module Karma {
  import opened Text

  /** A generator run: what it wrote, and whether it succeeded. */
  datatype Attempt = Attempt(out: string, ok: bool)

  /** A literal: writes its text and succeeds. */
  function Lit(s: string): Attempt {
    Attempt(s, true)
  }

  /** `eps(c)`: writes nothing, succeeds exactly when c holds. */
  function Eps(c: bool): Attempt {
    Attempt("", c)
  }

  /** `omit[a]`: runs a for its success, writes nothing. */
  function Omit(a: Attempt): Attempt {
    Attempt("", a.ok)
  }

  /** `a | eps`: a when it succeeds, otherwise nothing at all. */
  function OrEmpty(a: Attempt): Attempt {
    if a.ok then a else Lit("")
  }

  /** `a << b`: b runs only after a succeeded. */
  function Then(a: Attempt, b: Attempt): Attempt {
    if a.ok then Attempt(a.out + b.out, b.ok) else a
  }

  /** Each text as a literal. */
  function Lits(ss: seq<string>): (r: seq<Attempt>)
    ensures |r| == |ss|
  {
    seq(|ss|, i requires 0 <= i < |ss| => Lit(ss[i]))
  }

  function Outs(items: seq<Attempt>): (r: seq<string>)
    ensures |r| == |items|
  {
    seq(|items|, i requires 0 <= i < |items| => items[i].out)
  }

  /** Everything the items wrote, in order. */
  function Concat(items: seq<Attempt>): string {
    if |items| == 0 then "" else items[0].out + Concat(items[1..])
  }

  /** `p1 << p2 << ...`: the parts in order, up to the first that fails. */
  function Sequence(parts: seq<Attempt>): (r: Attempt)
    ensures r.ok <==> forall i :: 0 <= i < |parts| ==> parts[i].ok
    ensures r.ok ==> r.out == Concat(parts)
  {
    if |parts| == 0 then Lit("") else Then(parts[0], Sequence(parts[1..]))
  }

  lemma SequenceOfEight(p0: Attempt, p1: Attempt, p2: Attempt, p3: Attempt, p4: Attempt, p5: Attempt, p6: Attempt, p7: Attempt)
    ensures Sequence([p0, p1, p2, p3, p4, p5, p6, p7]).ok <==>
              p0.ok && p1.ok && p2.ok && p3.ok && p4.ok && p5.ok && p6.ok && p7.ok
  {
    var ps := [p0, p1, p2, p3, p4, p5, p6, p7];
    assert ps[0] == p0 && ps[1] == p1 && ps[2] == p2 && ps[3] == p3;
    assert ps[4] == p4 && ps[5] == p5 && ps[6] == p6 && ps[7] == p7;
    if p0.ok && p1.ok && p2.ok && p3.ok && p4.ok && p5.ok && p6.ok && p7.ok {
      forall i | 0 <= i < 8 ensures ps[i].ok {
        assert i == 0 || i == 1 || i == 2 || i == 3 || i == 4 || i == 5 || i == 6 || i == 7;
      }
    }
  }

  lemma SequenceOfSix(p0: Attempt, p1: Attempt, p2: Attempt, p3: Attempt, p4: Attempt, p5: Attempt)
    ensures Sequence([p0, p1, p2, p3, p4, p5]).ok <==> p0.ok && p1.ok && p2.ok && p3.ok && p4.ok && p5.ok
  {
    var ps := [p0, p1, p2, p3, p4, p5];
    assert ps[0] == p0 && ps[1] == p1 && ps[2] == p2 && ps[3] == p3 && ps[4] == p4 && ps[5] == p5;
    if p0.ok && p1.ok && p2.ok && p3.ok && p4.ok && p5.ok {
      forall i | 0 <= i < 6 ensures ps[i].ok {
        assert i == 0 || i == 1 || i == 2 || i == 3 || i == 4 || i == 5;
      }
    }
  }

  /**
   * `lead << lit(_a) << eps[++_a] << ' ' << item` for each item, with `_a`
   * starting at k: the running index is written, and bumped, before the
   * item runs, so item i is numbered k + i whether it succeeds or not.
   */
  function Numbered(lead: string, items: seq<Attempt>, k: nat): (r: seq<Attempt>)
    ensures |r| == |items|
  {
    seq(|items|, i requires 0 <= i < |items| => Then(Lit(lead + NatToString(k + i) + " "), items[i]))
  }

  predicate AnyOk(items: seq<Attempt>) {
    exists i :: 0 <= i < |items| && items[i].ok
  }

  /**
   * The relaxed list from element i on. `owed` is output waiting in the
   * list's buffer: the separator after a success, then what failed elements
   * wrote; it reaches the output only with the next success.
   */
  function Run(items: seq<Attempt>, sep: string, i: nat, owed: string): string
    requires i <= |items|
    decreases |items| - i
  {
    if i == |items| then ""
    else if items[i].ok then owed + items[i].out + Run(items, sep, i + 1, sep)
    else Run(items, sep, i + 1, owed + items[i].out)
  }

  /**
   * `a % sep` over the attempts of a on the container's elements. When no
   * element succeeds, the failed elements' output was written unbuffered
   * and stays.
   */
  function List(items: seq<Attempt>, sep: string): Attempt {
    if AnyOk(items) then Attempt(Run(items, sep, 0, ""), true) else Attempt(Concat(items), false)
  }

  /** Some element from i on succeeds. */
  predicate OkFrom(items: seq<Attempt>, i: nat) {
    exists j :: i <= j < |items| && items[j].ok
  }

  /**
   * What element i contributes to a list that succeeds: nothing when no
   * element from i on succeeds; otherwise its output, after the separator
   * when element i - 1 succeeded.
   */
  function Piece(items: seq<Attempt>, sep: string, i: nat): string
    requires i < |items|
  {
    if !OkFrom(items, i) then "" else Lead(items, sep, i) + items[i].out
  }

  /** The separator, when element i follows a success. */
  function Lead(items: seq<Attempt>, sep: string, i: nat): string
    requires i <= |items|
  {
    if 0 < i && items[i - 1].ok then sep else ""
  }

  function Pieces(items: seq<Attempt>, sep: string, i: nat): string
    requires i <= |items|
    decreases |items| - i
  {
    if i == |items| then "" else Piece(items, sep, i) + Pieces(items, sep, i + 1)
  }

  lemma {:induction false} RunPieces(items: seq<Attempt>, sep: string, i: nat, owed: string)
    requires i <= |items|
    ensures Run(items, sep, i, owed + Lead(items, sep, i))
              == (if OkFrom(items, i) then owed else "") + Pieces(items, sep, i)
    decreases |items| - i, 1
  {
    if i < |items| {
      if items[i].ok {
        RunPiecesOk(items, sep, i, owed);
      } else {
        RunPiecesFailed(items, sep, i, owed);
      }
    }
  }

  /** Element i succeeds: what is owed is written, then the element, and the separator is owed next. */
  lemma {:induction false} RunPiecesOk(items: seq<Attempt>, sep: string, i: nat, owed: string)
    requires i < |items| && items[i].ok
    ensures Run(items, sep, i, owed + Lead(items, sep, i))
              == (if OkFrom(items, i) then owed else "") + Pieces(items, sep, i)
    decreases |items| - i, 0
  {
    var lead := Lead(items, sep, i);
    var rest := Pieces(items, sep, i + 1);
    assert Lead(items, sep, i + 1) == sep;
    RunPieces(items, sep, i + 1, "");
    assert "" + sep == sep;
    assert Run(items, sep, i + 1, sep) == rest;
    assert OkFrom(items, i) by {
      assert i <= i < |items| && items[i].ok;
    }
    assert Pieces(items, sep, i) == lead + items[i].out + rest;
    assert Run(items, sep, i, owed + lead) == (owed + lead) + items[i].out + rest;
  }

  /** Element i fails: its output joins what is owed. */
  lemma {:induction false} RunPiecesFailed(items: seq<Attempt>, sep: string, i: nat, owed: string)
    requires i < |items| && !items[i].ok
    ensures Run(items, sep, i, owed + Lead(items, sep, i))
              == (if OkFrom(items, i) then owed else "") + Pieces(items, sep, i)
    decreases |items| - i, 0
  {
    var lead := Lead(items, sep, i);
    var owed' := owed + lead + items[i].out;
    assert Run(items, sep, i, owed + lead) == Run(items, sep, i + 1, owed' + Lead(items, sep, i + 1)) by {
      assert Lead(items, sep, i + 1) == "";
      assert owed' + "" == owed';
    }
    RunPieces(items, sep, i + 1, owed');
    assert OkFrom(items, i) == OkFrom(items, i + 1);
    if OkFrom(items, i) {
      assert Pieces(items, sep, i) == (lead + items[i].out) + Pieces(items, sep, i + 1);
      Regroup(owed, lead, items[i].out, Pieces(items, sep, i + 1));
    } else {
      assert Pieces(items, sep, i) == "" + Pieces(items, sep, i + 1);
    }
  }

  lemma Regroup(a: string, b: string, c: string, d: string)
    ensures a + b + c + d == a + ((b + c) + d)
  {
  }

  /**
   * The relaxed list, element by element: it succeeds exactly when some
   * element does, and then writes every element's output, failed ones
   * included, up to the last success, with the separator after each success
   * but the last.
   */
  lemma ListPieces(items: seq<Attempt>, sep: string)
    ensures List(items, sep)
              == if AnyOk(items) then Attempt(Pieces(items, sep, 0), true) else Attempt(Concat(items), false)
  {
    RunPieces(items, sep, 0, "");
    assert "" + "" == "";
  }

  /** When every element succeeds, the list is the outputs joined by the separator. */
  lemma ListAllOk(items: seq<Attempt>, sep: string)
    requires |items| > 0 && forall i :: 0 <= i < |items| ==> items[i].ok
    ensures List(items, sep) == Attempt(Join(Outs(items), sep), true)
  {
    ListPieces(items, sep);
    PiecesAllOk(items, sep, 0);
  }

  lemma {:induction false} PiecesAllOk(items: seq<Attempt>, sep: string, i: nat)
    requires i < |items| && forall j :: 0 <= j < |items| ==> items[j].ok
    ensures Pieces(items, sep, i) == (if 0 < i then sep else "") + Join(Outs(items)[i..], sep)
    decreases |items| - i
  {
    assert OkFrom(items, i);
    if i + 1 == |items| {
      assert Outs(items)[i..] == [items[i].out];
    } else {
      PiecesAllOk(items, sep, i + 1);
      assert Outs(items)[i..][1..] == Outs(items)[i + 1..];
    }
  }

  /** Literals always succeed: a list of them is their join, and fails only when there are none. */
  lemma ListOfLits(ss: seq<string>, sep: string)
    ensures List(Lits(ss), sep) == Attempt(Join(ss, sep), |ss| > 0)
  {
    if |ss| > 0 {
      ListAllOk(Lits(ss), sep);
      assert Outs(Lits(ss)) == ss;
    } else {
      assert !AnyOk(Lits(ss));
    }
  }

  /** s occurs in t at position p. */
  predicate OccursAt(s: string, t: string, p: int) {
    0 <= p <= |t| - |s| && t[p..p + |s|] == s
  }

  /** s occurs in t. */
  ghost predicate Within(s: string, t: string) {
    exists p :: OccursAt(s, t, p)
  }

  lemma WithinAround(s: string, a: string, b: string)
    requires Within(s, b)
    ensures Within(s, a + b) && Within(s, b + a)
  {
    var p :| OccursAt(s, b, p);
    assert (a + b)[|a| + p..|a| + p + |s|] == s;
    assert OccursAt(s, a + b, |a| + p);
    assert (b + a)[p..p + |s|] == s;
    assert OccursAt(s, b + a, p);
  }

  lemma WithinSelf(s: string)
    ensures Within(s, s)
  {
    assert s[0..|s|] == s;
    assert OccursAt(s, s, 0);
  }

  lemma {:induction false} WithinPieces(items: seq<Attempt>, sep: string, i: nat, j: nat)
    requires i <= j < |items| && items[j].ok
    ensures Within(items[j].out, Pieces(items, sep, i))
    decreases j - i
  {
    assert OkFrom(items, j);
    if i == j {
      var lead := Lead(items, sep, j);
      WithinSelf(items[j].out);
      WithinAround(items[j].out, lead, items[j].out);
      WithinAround(items[j].out, Pieces(items, sep, j + 1), lead + items[j].out);
    } else {
      WithinPieces(items, sep, i + 1, j);
      WithinAround(items[j].out, Piece(items, sep, i), Pieces(items, sep, i + 1));
    }
  }

  /** Every element that succeeds is written in full by the list. */
  lemma ListWritesOk(items: seq<Attempt>, sep: string, j: nat)
    requires j < |items| && items[j].ok
    ensures List(items, sep).ok && Within(items[j].out, List(items, sep).out)
  {
    ListPieces(items, sep);
    WithinPieces(items, sep, 0, j);
  }

  lemma WithinTransitive(s: string, t: string, u: string)
    requires Within(s, t) && Within(t, u)
    ensures Within(s, u)
  {
    var p :| OccursAt(s, t, p);
    var q :| OccursAt(t, u, q);
    forall i | 0 <= i < |s| ensures u[q + p + i] == s[i] {
      assert s[i] == t[p..p + |s|][i] == t[p + i];
      assert t[p + i] == u[q..q + |t|][p + i] == u[q + p + i];
    }
    assert u[q + p..q + p + |s|] == s;
    assert OccursAt(s, u, q + p);
  }

  /** A part's output is within the output of the sequence of parts. */
  lemma {:induction false} WithinConcat(s: string, parts: seq<Attempt>, k: nat)
    requires k < |parts| && Within(s, parts[k].out)
    ensures Within(s, Concat(parts))
  {
    if k == 0 {
      WithinAround(s, Concat(parts[1..]), parts[0].out);
    } else {
      WithinConcat(s, parts[1..], k - 1);
      WithinAround(s, parts[0].out, Concat(parts[1..]));
    }
  }
}
