/**
 * The COMSOL text-format (.mphtxt) parser.
 *
 * The grammar works on characters with a skipper that drops white space and
 * `#` comments. The model starts one step later, on the tokens the skipper
 * leaves: unsigned integers, real literals, fixed words (the header literal,
 * `Mesh`, `Selection`, shape keywords) and rest-of-line texts. Every
 * component after the first of an expectation sequence is committed: when
 * it fails, parsing stops with the position where that component started
 * and a description of what it expected. Only the trailing list of
 * selections is optional: it ends at the first token that cannot start a
 * selection, and then the input must be exhausted.
 */
module ComsolParser {
  import opened Wrappers
  import CM = ComsolMesh

  datatype Token<R> = Num(n: nat) | Real(value: R) | Word(word: string) | Text(text: string)

  const HeaderLiteral: string := "# Created by COMSOL Multiphysics"

  // Names of the grammar's rules, reported when a committed rule fails at its start.
  const TimestampRule: string := "Timestamp preceeded by \"# Created by COMSOL Multiphysics\""
  const VersionRule: string := "Version id in the form: integer integer"
  const TagsRule: string := "Tags definition"
  const TypesRule: string := "Object types definition"
  const MeshObjectRule: string := "mesh object"
  const BaseIndexRule: string := "lowest mesh point index equal to 0"
  const CoordsRule: string := "Mesh points definition"
  const ElementSetsRule: string := "Element sets"
  const GeomCountRule: string := "geometric indicies count equal to element count"
  const LabelRule: string := "Object label followed by # Label"
  const EntitiesRule: string := "Selection entities"

  /**
   * What a failing component expected: a named rule, an unsigned integer, a
   * literal word, or an unnamed compound component (a repetition, a lexeme,
   * an `omit` or the shape alternatives).
   */
  datatype Expected = Rule(name: string) | Integer | Literal(text: string) | Compound

  /** A committed failure: the token position where the failing component started. */
  datatype Fail = Fail(at: nat, expected: Expected)

  /** A component either parses, fails softly at its very start, or fails committed. */
  datatype Outcome<T> = Parsed(value: T, next: nat) | Soft | Hard(fail: Fail)

  /**
   * Why the whole parse failed: a reported expectation failure, or input left
   * over after the last selection (the parse stops without a report).
   */
  datatype ParseError = Reported(fail: Fail) | Unconsumed(at: nat)

  function NumAt<R>(toks: seq<Token<R>>, pos: nat): Option<nat> {
    if pos < |toks| && toks[pos].Num? then Some(toks[pos].n) else None
  }

  function TextAt<R>(toks: seq<Token<R>>, pos: nat): Option<string> {
    if pos < |toks| && toks[pos].Text? then Some(toks[pos].text) else None
  }

  predicate WordAt<R>(toks: seq<Token<R>>, pos: nat, w: string) {
    pos < |toks| && toks[pos] == Word(w)
  }

  /** A real in a coordinate position: a real literal, or an integer read as a real. */
  function RealAt<R>(toks: seq<Token<R>>, pos: nat, ofNat: nat -> R): Option<R> {
    if pos < |toks| && toks[pos].Real? then Some(toks[pos].value)
    else if pos < |toks| && toks[pos].Num? then Some(ofNat(toks[pos].n))
    else None
  }

  /** `count` unsigned integers in a row. */
  function ReadNums<R>(toks: seq<Token<R>>, pos: nat, count: nat): (r: Option<seq<nat>>)
    requires pos <= |toks|
    ensures r.Some? ==> |r.value| == count && pos + count <= |toks|
    decreases count
  {
    if count == 0 then Some([])
    else if NumAt(toks, pos).None? then None
    else
      match ReadNums(toks, pos + 1, count - 1)
      case None => None
      case Some(rest) => Some([NumAt(toks, pos).value] + rest)
  }

  /** One point: `sdim` reals in a row. */
  function ReadPoint<R>(toks: seq<Token<R>>, pos: nat, sdim: nat, ofNat: nat -> R): (r: Option<seq<R>>)
    requires pos <= |toks|
    ensures r.Some? ==> |r.value| == sdim && pos + sdim <= |toks|
    decreases sdim
  {
    if sdim == 0 then Some([])
    else if RealAt(toks, pos, ofNat).None? then None
    else
      match ReadPoint(toks, pos + 1, sdim - 1, ofNat)
      case None => None
      case Some(rest) => Some([RealAt(toks, pos, ofNat).value] + rest)
  }

  /** `count` points; yields them with the position after the last one. */
  function ReadPoints<R>(toks: seq<Token<R>>, pos: nat, count: nat, sdim: nat, ofNat: nat -> R): (r: Option<(seq<seq<R>>, nat)>)
    requires pos <= |toks|
    ensures r.Some? ==> |r.value.0| == count && pos <= r.value.1 <= |toks|
    ensures r.Some? ==> forall i :: 0 <= i < count ==> |r.value.0[i]| == sdim
    decreases count
  {
    if count == 0 then Some(([], pos))
    else
      match ReadPoint(toks, pos, sdim, ofNat)
      case None => None
      case Some(p) =>
        match ReadPoints(toks, pos + sdim, count - 1, sdim, ofNat)
        case None => None
        case Some((ps, next)) => Some(([p] + ps, next))
  }

  /** `count` elements of `npe` node indices each. */
  function ReadElements<R>(toks: seq<Token<R>>, pos: nat, count: nat, npe: nat): (r: Option<(seq<seq<nat>>, nat)>)
    requires pos <= |toks|
    ensures r.Some? ==> |r.value.0| == count && pos <= r.value.1 <= |toks|
    ensures r.Some? ==> forall i :: 0 <= i < count ==> |r.value.0[i]| == npe
    decreases count
  {
    if count == 0 then Some(([], pos))
    else
      match ReadNums(toks, pos, npe)
      case None => None
      case Some(e) =>
        match ReadElements(toks, pos + npe, count - 1, npe)
        case None => None
        case Some((es, next)) => Some(([e] + es, next))
  }

  /** `count` (integer, text) lines of the tags or types table. */
  function ReadPairs<R>(toks: seq<Token<R>>, pos: nat, count: nat): (r: Outcome<seq<(nat, string)>>)
    requires pos <= |toks|
    ensures r.Parsed? ==> |r.value| == count && r.next == pos + 2 * count <= |toks|
    ensures r.Parsed? ==> forall i :: 0 <= i < count ==>
                            NumAt(toks, pos + 2 * i) == Some(r.value[i].0) && TextAt(toks, pos + 2 * i + 1) == Some(r.value[i].1)
    decreases count
  {
    if count == 0 then Parsed([], pos)
    else if NumAt(toks, pos).None? then Soft
    else if TextAt(toks, pos + 1).None? then Hard(Fail(pos + 1, Compound))
    else
      match ReadPairs(toks, pos + 2, count - 1)
      case Soft => Soft
      case Hard(f) => Hard(f)
      case Parsed(rest, next) => Parsed([(NumAt(toks, pos).value, TextAt(toks, pos + 1).value)] + rest, next)
  }

  /** The tags or the types table: a count, then that many lines. */
  function ParseTable<R>(toks: seq<Token<R>>, pos: nat, rule: string): (r: Result<(seq<(nat, string)>, nat), Fail>)
    ensures r.Success? ==> pos < r.value.1 <= |toks|
    ensures r.Success? ==> NumAt(toks, pos) == Some(|r.value.0|) && r.value.1 == pos + 1 + 2 * |r.value.0|
    ensures r.Success? ==> forall i :: 0 <= i < |r.value.0| ==>
                             && NumAt(toks, pos + 1 + 2 * i) == Some(r.value.0[i].0)
                             && TextAt(toks, pos + 2 + 2 * i) == Some(r.value.0[i].1)
    ensures NumAt(toks, pos).None? ==> r == Failure(Fail(pos, Rule(rule)))
  {
    if NumAt(toks, pos).None? then Failure(Fail(pos, Rule(rule)))
    else
      match ReadPairs(toks, pos + 1, NumAt(toks, pos).value)
      case Soft => Failure(Fail(pos + 1, Compound))
      case Hard(f) => Failure(f)
      case Parsed(v, next) => Success((v, next))
  }

  /** One element set: type, nodes per element, count, elements, count again, geometric indices. */
  function ParseElementSet<R>(toks: seq<Token<R>>, pos: nat): (r: Outcome<CM.ElementSet>)
    ensures r.Parsed? ==> pos < r.next <= |toks|
    ensures r.Parsed? ==> CM.SetWellFormed(r.value)
  {
    if NumAt(toks, pos).None? then Soft
    else if !(pos + 1 < |toks| && toks[pos + 1].Word? && toks[pos + 1].word in CM.ShapeKeywords) then
      Hard(Fail(pos + 1, Compound))
    else if NumAt(toks, pos + 2).None? then Hard(Fail(pos + 2, Compound))
    else if NumAt(toks, pos + 3).None? then Hard(Fail(pos + 3, Compound))
    else
      var npe := NumAt(toks, pos + 2).value;
      var count := NumAt(toks, pos + 3).value;
      match ReadElements(toks, pos + 4, count, npe)
      case None => Hard(Fail(pos + 4, Compound))
      case Some((elements, p)) =>
        if NumAt(toks, p) != Some(count) then Hard(Fail(p, Rule(GeomCountRule)))
        else
          match ReadNums(toks, p + 1, count)
          case None => Hard(Fail(p + 1, Compound))
          case Some(geom) =>
            Parsed(CM.ElementSet(CM.ElementType(NumAt(toks, pos).value, toks[pos + 1].word), elements, geom),
                   p + 1 + count)
  }

  function ReadElementSets<R>(toks: seq<Token<R>>, pos: nat, count: nat): (r: Outcome<seq<CM.ElementSet>>)
    requires pos <= |toks|
    ensures r.Parsed? ==> |r.value| == count && pos <= r.next <= |toks|
    ensures r.Parsed? ==> forall i :: 0 <= i < |r.value| ==> CM.SetWellFormed(r.value[i])
    decreases count
  {
    if count == 0 then Parsed([], pos)
    else
      match ParseElementSet(toks, pos)
      case Soft => Soft
      case Hard(f) => Hard(f)
      case Parsed(es, p) =>
        match ReadElementSets(toks, p, count - 1)
        case Soft => Soft
        case Hard(f) => Hard(f)
        case Parsed(rest, next) => Parsed([es] + rest, next)
  }

  /** The element sets: a count, then that many sets. */
  function ParseElementSets<R>(toks: seq<Token<R>>, pos: nat): (r: Outcome<seq<CM.ElementSet>>)
    ensures r.Parsed? ==> pos < r.next <= |toks|
    ensures r.Parsed? ==> forall i :: 0 <= i < |r.value| ==> CM.SetWellFormed(r.value[i])
  {
    if NumAt(toks, pos).None? then Soft
    else
      match ReadElementSets(toks, pos + 1, NumAt(toks, pos).value)
      case Soft => Hard(Fail(pos + 1, Compound))
      case Hard(f) => Hard(f)
      case Parsed(sets, next) => Parsed(sets, next)
  }

  /** The mesh object: points and element sets, with its header numbers. */
  function ParseMeshObject<R>(toks: seq<Token<R>>, pos: nat, ofNat: nat -> R): (r: Outcome<CM.MeshObject<R>>)
    ensures r.Parsed? ==> pos < r.next <= |toks|
    ensures r.Parsed? ==> CM.ObjectWellFormed(r.value)
  {
    if NumAt(toks, pos).None? then Soft
    else if NumAt(toks, pos + 1).None? then Hard(Fail(pos + 1, Integer))
    else if NumAt(toks, pos + 2).None? then Hard(Fail(pos + 2, Integer))
    else if NumAt(toks, pos + 3).None? then Hard(Fail(pos + 3, Compound))
    else if !WordAt(toks, pos + 4, "Mesh") then Hard(Fail(pos + 4, Literal("Mesh")))
    else if NumAt(toks, pos + 5).None? then Hard(Fail(pos + 5, Integer))
    else if NumAt(toks, pos + 6).None? then Hard(Fail(pos + 6, Integer))
    else if NumAt(toks, pos + 7).None? then Hard(Fail(pos + 7, Integer))
    else if NumAt(toks, pos + 8) != Some(0) then Hard(Fail(pos + 8, Rule(BaseIndexRule)))
    else
      var sdim := NumAt(toks, pos + 6).value;
      var numPoints := NumAt(toks, pos + 7).value;
      match ReadPoints(toks, pos + 9, numPoints, sdim, ofNat)
      case None => Hard(Fail(pos + 9, Rule(CoordsRule)))
      case Some((coords, p)) =>
        match ParseElementSets(toks, p)
        case Soft => Hard(Fail(p, Rule(ElementSetsRule)))
        case Hard(f) => Hard(f)
        case Parsed(sets, next) =>
          Parsed(CM.MeshObject(NumAt(toks, pos + 3).value, NumAt(toks, pos + 5).value, sdim, numPoints, 0,
                               coords, sets), next)
  }

  /** One selection object; the label is kept untrimmed here. */
  function ParseSelection<R>(toks: seq<Token<R>>, pos: nat): (r: Outcome<CM.SelectionObject>)
    ensures r.Parsed? ==> pos < r.next <= |toks|
  {
    if NumAt(toks, pos).None? then Soft
    else if NumAt(toks, pos + 1).None? then Hard(Fail(pos + 1, Integer))
    else if NumAt(toks, pos + 2).None? then Hard(Fail(pos + 2, Integer))
    else if NumAt(toks, pos + 3).None? then Hard(Fail(pos + 3, Compound))
    else if !WordAt(toks, pos + 4, "Selection") then Hard(Fail(pos + 4, Literal("Selection")))
    else if NumAt(toks, pos + 5).None? then Hard(Fail(pos + 5, Integer))
    else if NumAt(toks, pos + 6).None? then Hard(Fail(pos + 6, Rule(LabelRule)))
    else if TextAt(toks, pos + 7).None? then Hard(Fail(pos + 7, Compound))
    else if NumAt(toks, pos + 8).None? then Hard(Fail(pos + 8, Compound))
    else if TextAt(toks, pos + 9).None? then Hard(Fail(pos + 9, Compound))
    else if NumAt(toks, pos + 10).None? then Hard(Fail(pos + 10, Integer))
    else if NumAt(toks, pos + 11).None? then Hard(Fail(pos + 11, Compound))
    else
      var count := NumAt(toks, pos + 11).value;
      match ReadNums(toks, pos + 12, count)
      case None => Hard(Fail(pos + 12, Rule(EntitiesRule)))
      case Some(entities) =>
        Parsed(CM.SelectionObject(NumAt(toks, pos + 3).value, NumAt(toks, pos + 5).value,
                                  TextAt(toks, pos + 7).value, NumAt(toks, pos + 10).value, entities),
               pos + 12 + count)
  }

  /** Selections, as many as start here; the list ends at the first soft failure. */
  function ParseSelections<R>(toks: seq<Token<R>>, pos: nat): (r: Result<(seq<CM.SelectionObject>, nat), Fail>)
    requires pos <= |toks|
    ensures r.Success? ==> pos <= r.value.1 <= |toks|
    decreases |toks| - pos
  {
    match ParseSelection(toks, pos)
    case Soft => Success(([], pos))
    case Hard(f) => Failure(f)
    case Parsed(s, p) =>
      match ParseSelections(toks, p)
      case Failure(f) => Failure(f)
      case Success((rest, next)) => Success(([s] + rest, next))
  }

  /** The grammar's start rule, before labels are trimmed. */
  function ParseRaw<R>(toks: seq<Token<R>>, ofNat: nat -> R): (r: Result<CM.Mesh<R>, ParseError>)
    ensures r.Success? ==> CM.WellFormed(r.value)
  {
    if !(WordAt(toks, 0, HeaderLiteral) && TextAt(toks, 1).Some?) then Failure(Reported(Fail(0, Rule(TimestampRule))))
    else if NumAt(toks, 2).None? then Failure(Reported(Fail(2, Rule(VersionRule))))
    else if NumAt(toks, 3).None? then Failure(Reported(Fail(3, Integer)))
    else
      match ParseTable(toks, 4, TagsRule)
      case Failure(f) => Failure(Reported(f))
      case Success((tags, p1)) =>
        match ParseTable(toks, p1, TypesRule)
        case Failure(f) => Failure(Reported(f))
        case Success((types, p2)) =>
          match ParseMeshObject(toks, p2, ofNat)
          case Soft => Failure(Reported(Fail(p2, Rule(MeshObjectRule))))
          case Hard(f) => Failure(Reported(f))
          case Parsed(obj, p3) =>
            match ParseSelections(toks, p3)
            case Failure(f) => Failure(Reported(f))
            case Success((sels, p4)) =>
              if p4 != |toks| then Failure(Unconsumed(p4))
              else
                Success(CM.Mesh(TextAt(toks, 1).value, (NumAt(toks, 2).value, NumAt(toks, 3).value),
                                tags, types, obj, sels))
  }

  // ---------------------------------------------------------------------
  // Label trimming.

  predicate AllSpaces(s: string) {
    forall i :: 0 <= i < |s| ==> s[i] == ' '
  }

  function FirstNonSpace(s: string): (i: nat)
    requires !AllSpaces(s)
    ensures i < |s| && s[i] != ' ' && AllSpaces(s[..i])
  {
    if s[0] != ' ' then 0
    else
      var i := 1 + FirstNonSpace(s[1..]);
      assert s[..i] == [s[0]] + s[1..][..i - 1];
      i
  }

  function LastNonSpace(s: string): (i: nat)
    requires !AllSpaces(s)
    ensures i < |s| && s[i] != ' ' && AllSpaces(s[i + 1..])
    ensures forall k :: i < k < |s| ==> s[k] == ' '
  {
    if s[|s| - 1] != ' ' then |s| - 1
    else
      var i := LastNonSpace(s[..|s| - 1]);
      assert s[i + 1..] == s[..|s| - 1][i + 1..] + [' '];
      i
  }

  /**
   * Removes leading and trailing blanks (only the space character). A text
   * of nothing but blanks, or an empty one, is returned as it is.
   */
  function Trim(s: string): (r: string)
    ensures AllSpaces(s) ==> r == s
    ensures !AllSpaces(s) ==>
              exists i, j :: 0 <= i < j <= |s| && r == s[i..j] && AllSpaces(s[..i]) && AllSpaces(s[j..])
                             && r[0] != ' ' && r[|r| - 1] != ' '
  {
    if AllSpaces(s) then s
    else
      var first := FirstNonSpace(s);
      var last := LastNonSpace(s);
      assert first <= last;
      s[first..last + 1]
  }

  /** Trimming a trimmed text changes nothing. */
  lemma TrimIdempotent(s: string)
    ensures Trim(Trim(s)) == Trim(s)
  {
    var r := Trim(s);
    if !AllSpaces(s) {
      assert r[0] != ' ';
      assert !AllSpaces(r);
      assert FirstNonSpace(r) == 0;
      assert LastNonSpace(r) == |r| - 1;
      assert r[0..|r|] == r;
    }
  }

  /** Blanks around a text that starts and ends with a non-blank are exactly what trimming removes. */
  lemma TrimPadded(a: string, b: string, c: string)
    requires AllSpaces(a) && AllSpaces(c)
    requires |b| > 0 && b[0] != ' ' && b[|b| - 1] != ' '
    ensures Trim(a + b + c) == b
  {
    var s := a + b + c;
    assert s[|a|] == b[0];
    assert !AllSpaces(s);
    var first := FirstNonSpace(s);
    var last := LastNonSpace(s);
    assert s[|a| + |b| - 1] == b[|b| - 1];
    assert s[first..last + 1] == b;
  }

  /** The whole parse: the grammar, then every selection label trimmed. */
  function Parse<R>(toks: seq<Token<R>>, ofNat: nat -> R): (r: Result<CM.Mesh<R>, ParseError>)
    ensures r.Success? <==> ParseRaw(toks, ofNat).Success?
    ensures r.Success? ==> r.value == TrimLabels(ParseRaw(toks, ofNat).value)
    ensures r.Failure? ==> r.error == ParseRaw(toks, ofNat).error
    ensures r.Success? ==> CM.WellFormed(r.value)
  {
    match ParseRaw(toks, ofNat)
    case Failure(e) => Failure(e)
    case Success(m) => Success(TrimLabels(m))
  }

  function TrimLabels<R>(m: CM.Mesh<R>): (r: CM.Mesh<R>)
    ensures |r.selections| == |m.selections|
  {
    m.(selections := seq(|m.selections|, i requires 0 <= i < |m.selections| =>
                           m.selections[i].(name := Trim(m.selections[i].name))))
  }
}
