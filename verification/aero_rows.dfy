/**
 * Row formats shared by the two Aero generators, with readers that undo
 * them.
 *
 * A block is a title line, then numbered rows separated by line feeds
 * (what Karma's `eol` emits). The running index starts at 1 in every block
 * (the rules' local `_a`, set to 1 by `eps[_a = 1]` and bumped as each row
 * starts). When every row can be written, the output is a sequence of lines,
 * each followed by one line feed.
 */
module AeroRows {
  import opened Wrappers
  import opened Text
  import opened Karma
  import AM = AeroMesh

  /** Each line followed by a line feed. */
  function Unlines(lines: seq<string>): (r: string)
    ensures |lines| > 0 ==> |r| > 0 && r[|r| - 1] == '\n'
  {
    if |lines| == 0 then "" else lines[0] + "\n" + Unlines(lines[1..])
  }

  predicate NoLineFeed(lines: seq<string>) {
    forall i :: 0 <= i < |lines| ==> '\n' !in lines[i]
  }

  /** Cutting the output at line feeds gives back its lines, then the empty rest after the last one. */
  lemma {:induction false} SplitUnlines(lines: seq<string>)
    requires NoLineFeed(lines)
    ensures Split(Unlines(lines), '\n') == lines + [""]
  {
    if |lines| > 0 {
      SplitUnlines(lines[1..]);
      SplitAppend(lines[0], Unlines(lines[1..]), '\n');
      assert lines[0] + "\n" + Unlines(lines[1..]) == lines[0] + ['\n'] + Unlines(lines[1..]);
      assert [lines[0]] + (lines[1..] + [""]) == lines + [""];
    }
  }

  lemma {:induction false} UnlinesAppend(a: seq<string>, b: seq<string>)
    ensures Unlines(a + b) == Unlines(a) + Unlines(b)
  {
    if |a| == 0 {
      assert a + b == b;
    } else {
      assert (a + b)[1..] == a[1..] + b;
      UnlinesAppend(a[1..], b);
    }
  }

  /**
   * Rows prefixed with lead, then a running index from k, then a blank:
   * row i becomes lead + (k + i) + " " + rows[i].
   */
  function Indexed(lead: string, rows: seq<string>, k: nat): (r: seq<string>)
    ensures |r| == |rows|
  {
    seq(|rows|, i requires 0 <= i < |rows| => lead + NatToString(k + i) + " " + rows[i])
  }

  /** The text up to the first c and the text after it, when c occurs. */
  function CutAt(s: string, c: char): (r: Option<(string, string)>)
    ensures r.Some? ==> c !in r.value.0 && s == r.value.0 + [c] + r.value.1
    ensures r.None? ==> c !in s
  {
    if |s| == 0 then None
    else if s[0] == c then
      assert s == [] + [c] + s[1..];
      Some(([], s[1..]))
    else
      match CutAt(s[1..], c)
      case None => None
      case Some(p) =>
        assert s == [s[0]] + s[1..];
        Some(([s[0]] + p.0, p.1))
  }

  lemma {:induction false} CutAtJoined(a: string, b: string, c: char)
    requires c !in a
    ensures CutAt(a + [c] + b, c) == Some((a, b))
  {
    if |a| == 0 {
      assert a + [c] + b == [c] + b;
    } else {
      assert (a + [c] + b)[1..] == a[1..] + [c] + b;
      CutAtJoined(a[1..], b, c);
      assert [a[0]] + a[1..] == a;
    }
  }

  /**
   * Reads rows written by Indexed: each line must start with lead, then the
   * expected running index and a blank; the remainders are returned.
   */
  function ReadIndexed(lead: string, lines: seq<string>, k: nat): (r: Option<seq<string>>)
    ensures r.Some? ==> |r.value| == |lines|
  {
    if |lines| == 0 then Some([])
    else if |lines[0]| < |lead| || lines[0][..|lead|] != lead then None
    else
      match CutAt(lines[0][|lead|..], ' ')
      case None => None
      case Some(p) =>
        if ParseNat(p.0) != Some(k) then None
        else
          match ReadIndexed(lead, lines[1..], k + 1)
          case None => None
          case Some(rest) => Some([p.1] + rest)
  }

  /** Reading indexed rows back gives the rows, so the index runs k, k + 1, ... */
  lemma {:induction false} ReadIndexedRoundTrip(lead: string, rows: seq<string>, k: nat)
    ensures ReadIndexed(lead, Indexed(lead, rows, k), k) == Some(rows)
    decreases |rows|
  {
    var lines := Indexed(lead, rows, k);
    if |rows| > 0 {
      assert HeadReads(lead, lines[0], k, rows[0]) by {
        IndexedHead(lead, rows, k);
      }
      assert ReadIndexed(lead, lines[1..], k + 1) == Some(rows[1..]) by {
        assert lines[1..] == Indexed(lead, rows[1..], k + 1);
        ReadIndexedRoundTrip(lead, rows[1..], k + 1);
      }
      ReadIndexedStep(lead, lines, k, rows[0], rows[1..]);
      assert [rows[0]] + rows[1..] == rows;
    }
  }

  /** The line starts with lead, then k and a blank, then row. */
  predicate HeadReads(lead: string, line: string, k: nat, row: string) {
    |line| >= |lead| && line[..|lead|] == lead && CutAt(line[|lead|..], ' ') == Some((NatToString(k), row))
  }

  lemma IndexedHead(lead: string, rows: seq<string>, k: nat)
    requires |rows| > 0
    ensures HeadReads(lead, Indexed(lead, rows, k)[0], k, rows[0])
  {
    var line := Indexed(lead, rows, k)[0];
    var n := NatToString(k);
    assert line == lead + (n + [' '] + rows[0]);
    assert line[|lead|..] == n + [' '] + rows[0];
    assert ' ' !in n by {
      assert forall i :: 0 <= i < |n| ==> IsDigit(n[i]);
    }
    CutAtJoined(n, rows[0], ' ');
  }

  /** One step of the reader: a head line that reads, then lines that read. */
  lemma ReadIndexedStep(lead: string, lines: seq<string>, k: nat, row: string, rest: seq<string>)
    requires |lines| > 0 && HeadReads(lead, lines[0], k, row)
    requires ReadIndexed(lead, lines[1..], k + 1) == Some(rest)
    ensures ReadIndexed(lead, lines, k) == Some([row] + rest)
  {
    ParseNatToString(k);
  }

  function ParseNats(ss: seq<string>): (r: Option<seq<nat>>)
    ensures r.Some? ==> |r.value| == |ss|
  {
    if |ss| == 0 then Some([])
    else
      match ParseNat(ss[0])
      case None => None
      case Some(x) =>
        match ParseNats(ss[1..])
        case None => None
        case Some(rest) => Some([x] + rest)
  }

  lemma {:induction false} ParseNatTexts(xs: seq<nat>)
    ensures ParseNats(NatTexts(xs)) == Some(xs)
  {
    if |xs| > 0 {
      ParseNatToString(xs[0]);
      assert NatTexts(xs)[1..] == NatTexts(xs[1..]);
      ParseNatTexts(xs[1..]);
      assert [xs[0]] + xs[1..] == xs;
    }
  }

  lemma NatTextsNoBlank(xs: seq<nat>)
    ensures forall i :: 0 <= i < |xs| ==> ' ' !in NatTexts(xs)[i]
  {
    forall i | 0 <= i < |xs| ensures ' ' !in NatTexts(xs)[i] {
      var s := NatToString(xs[i]);
      assert forall j :: 0 <= j < |s| ==> IsDigit(s[j]);
    }
  }

  /** An element row: the type id, then the node ids, separated by blanks. */
  function ElementRow(e: AM.Element): string {
    NatToString(e.typeId) + " " + Join(NatTexts(e.connectivity), " ")
  }

  /** Reads an element row: at least two numbers, the first being the type id. */
  function ReadElementRow(row: string): (r: Option<AM.Element>)
    ensures r.Some? ==> |r.value.connectivity| > 0
  {
    var fields := Split(row, ' ');
    if |fields| < 2 then None
    else
      match ParseNats(fields)
      case None => None
      case Some(ns) => Some(AM.Element(ns[0], ns[1..]))
  }

  /** An element with at least one node reads back from its row. */
  lemma ElementRowRoundTrip(e: AM.Element)
    requires |e.connectivity| > 0
    ensures ReadElementRow(ElementRow(e)) == Some(e)
  {
    var ns := [e.typeId] + e.connectivity;
    ElementRowFields(e);
    ParseNatTexts(ns);
    assert ns[0] == e.typeId && ns[1..] == e.connectivity;
  }

  /** The fields of an element row are the rendered type id and node ids. */
  lemma ElementRowFields(e: AM.Element)
    requires |e.connectivity| > 0
    ensures Split(ElementRow(e), ' ') == NatTexts([e.typeId] + e.connectivity)
  {
    var t := NatToString(e.typeId);
    var parts := NatTexts(e.connectivity);
    var joined := Join(parts, " ");
    assert Split(ElementRow(e), ' ') == [t] + parts by {
      assert ' ' !in t by {
        NatTextsNoBlank([e.typeId]);
        assert NatTexts([e.typeId])[0] == t;
      }
      assert Split(joined, ' ') == parts by {
        NatTextsNoBlank(e.connectivity);
        SplitJoin(parts, ' ');
      }
      assert ElementRow(e) == t + [' '] + joined;
      SplitAppend(t, joined, ' ');
    }
    NatTextsCons(e.typeId, e.connectivity);
  }

  lemma NatTextsCons(x: nat, xs: seq<nat>)
    ensures NatTexts([x] + xs) == [NatToString(x)] + NatTexts(xs)
  {
    var l := NatTexts([x] + xs);
    var r := [NatToString(x)] + NatTexts(xs);
    assert |l| == |r|;
    forall i | 0 <= i < |l|
      ensures l[i] == r[i]
    {
      if i > 0 {
        assert ([x] + xs)[i] == xs[i - 1];
      }
    }
  }

  /** A node row: the rendered coordinates separated by blanks. */
  function NodeRow<R>(node: seq<R>, render: R -> string): string {
    Join(seq(|node|, j requires 0 <= j < |node| => render(node[j])), " ")
  }

  /** When no rendering holds a blank, the fields of a node row are the rendered coordinates. */
  lemma NodeRowFields<R>(node: seq<R>, render: R -> string)
    requires |node| > 0
    requires forall j :: 0 <= j < |node| ==> ' ' !in render(node[j])
    ensures Split(NodeRow(node, render), ' ') == seq(|node|, j requires 0 <= j < |node| => render(node[j]))
  {
    SplitJoin(seq(|node|, j requires 0 <= j < |node| => render(node[j])), ' ');
  }

  /** Some node row can be written: the relaxed list skips nodes without coordinates. */
  predicate NodesGenerate<R>(nodes: seq<seq<R>>) {
    exists i :: 0 <= i < |nodes| && |nodes[i]| > 0
  }

  /** Some element row can be written: the relaxed list skips elements without nodes. */
  predicate ElementsGenerate(es: seq<AM.Element>) {
    exists i :: 0 <= i < |es| && |es[i].connectivity| > 0
  }

  /** Some surface has a row that can be written. */
  predicate SurfacesGenerate(t: seq<AM.Bucket>) {
    exists i :: 0 <= i < |t| && ElementsGenerate(t[i].elements)
  }

  /** There are nodes, and every node row can be written. */
  predicate NodesComplete<R>(nodes: seq<seq<R>>) {
    |nodes| > 0 && forall i :: 0 <= i < |nodes| ==> |nodes[i]| > 0
  }

  /** Every element row can be written. */
  predicate RowsComplete(es: seq<AM.Element>) {
    forall i :: 0 <= i < |es| ==> |es[i].connectivity| > 0
  }

  /** There are elements, and every element row can be written. */
  predicate ElementsComplete(es: seq<AM.Element>) {
    |es| > 0 && RowsComplete(es)
  }

  /** `real_ % ' '` over a node's coordinates. */
  function Coordinates<R>(node: seq<R>, render: R -> string): Attempt {
    List(Lits(seq(|node|, j requires 0 <= j < |node| => render(node[j]))), " ")
  }

  /** `element`, that is `uint_ << ' ' << uint_ % ' '`, over the type id and the node ids. */
  function ElementItem(e: AM.Element): Attempt {
    Then(Lit(NatToString(e.typeId) + " "), List(Lits(NatTexts(e.connectivity)), " "))
  }

  function NodeItems<R>(nodes: seq<seq<R>>, render: R -> string): (r: seq<Attempt>)
    ensures |r| == |nodes|
  {
    Numbered("", seq(|nodes|, i requires 0 <= i < |nodes| => Coordinates(nodes[i], render)), 1)
  }

  function ElementItems(es: seq<AM.Element>): (r: seq<Attempt>)
    ensures |r| == |es|
  {
    Numbered("", seq(|es|, i requires 0 <= i < |es| => ElementItem(es[i])), 1)
  }

  /** `title << eol << eps[_a = 1] << (...) % eol`: a title line, then the rows. */
  function Block(title: string, rows: seq<Attempt>): Attempt {
    Then(Lit(title + "\n"), List(rows, "\n"))
  }

  /** The labels rule: a block of "* " rows, or nothing at all when there are no labels. */
  function LabelsRule(labels: seq<string>): Attempt {
    OrEmpty(Block("* Attributes/matusage labels", Numbered("* ", Lits(labels), 1)))
  }

  /** The attributes and matusage rules: a block of numbered values. */
  function ValuesRule(title: string, values: seq<nat>): Attempt {
    Block(title, Numbered("", Lits(NatTexts(values)), 1))
  }

  /** A node's coordinates are written as its row, and fail when there are none. */
  lemma CoordinatesRow<R>(node: seq<R>, render: R -> string)
    ensures Coordinates(node, render) == Attempt(NodeRow(node, render), |node| > 0)
  {
    ListOfLits(seq(|node|, j requires 0 <= j < |node| => render(node[j])), " ");
  }

  /**
   * An element is written as its row, and fails when it has no node: the
   * type id and a blank are written before the node list fails.
   */
  lemma ElementItemRow(e: AM.Element)
    ensures ElementItem(e) == Attempt(ElementRow(e), |e.connectivity| > 0)
  {
    ListOfLits(NatTexts(e.connectivity), " ");
  }

  /** Node i writes the numbered node row, and succeeds exactly when the node has coordinates. */
  lemma NodeItemsRows<R>(nodes: seq<seq<R>>, render: R -> string)
    ensures forall i :: 0 <= i < |nodes|
              ==> NodeItems(nodes, render)[i] == Attempt(Indexed("", NodeRows(nodes, render), 1)[i], |nodes[i]| > 0)
  {
    forall i | 0 <= i < |nodes|
      ensures NodeItems(nodes, render)[i] == Attempt(Indexed("", NodeRows(nodes, render), 1)[i], |nodes[i]| > 0)
    {
      CoordinatesRow(nodes[i], render);
    }
  }

  /** Element i writes the numbered element row, and succeeds exactly when the element has nodes. */
  lemma ElementItemsRows(es: seq<AM.Element>)
    ensures forall i :: 0 <= i < |es|
              ==> ElementItems(es)[i] == Attempt(Indexed("", ElementRows(es), 1)[i], |es[i].connectivity| > 0)
  {
    forall i | 0 <= i < |es|
      ensures ElementItems(es)[i] == Attempt(Indexed("", ElementRows(es), 1)[i], |es[i].connectivity| > 0)
    {
      ElementItemRow(es[i]);
    }
  }

  /** Rows joined by line feeds, then a line feed, are the rows as lines. */
  lemma {:induction false} JoinUnlines(rows: seq<string>)
    requires |rows| > 0
    ensures Join(rows, "\n") + "\n" == Unlines(rows)
  {
    if |rows| > 1 {
      JoinUnlines(rows[1..]);
    }
  }

  /** Some element from position i on succeeds. */
  predicate SomeFrom(oks: seq<bool>, i: nat) {
    exists j :: i <= j < |oks| && oks[j]
  }

  /**
   * A relaxed list with line-feed separators, as lines, from element i on:
   * element j writes the lines blocks[j] and succeeds when oks[j]. Elements
   * after the last success are dropped, and an empty line follows each
   * success but the last.
   */
  function ListLines(oks: seq<bool>, blocks: seq<seq<string>>, i: nat): seq<string>
    requires |oks| == |blocks| && i <= |oks|
    decreases |oks| - i
  {
    if i == |oks| then []
    else
      (if !SomeFrom(oks, i) then [] else (if 0 < i && oks[i - 1] then [""] else []) + blocks[i])
      + ListLines(oks, blocks, i + 1)
  }

  /** The relaxed list's output, for elements that write whole lines. */
  lemma {:induction false} PiecesLines(items: seq<Attempt>, oks: seq<bool>, blocks: seq<seq<string>>, i: nat)
    requires |items| == |oks| == |blocks| && i <= |items|
    requires forall j :: 0 <= j < |items| ==> items[j] == Attempt(Unlines(blocks[j]), oks[j])
    ensures Pieces(items, "\n", i) == Unlines(ListLines(oks, blocks, i))
    decreases |items| - i
  {
    if i < |items| {
      PiecesLines(items, oks, blocks, i + 1);
      var rest := ListLines(oks, blocks, i + 1);
      assert OkFrom(items, i) == SomeFrom(oks, i) by {
        if OkFrom(items, i) {
          var j :| i <= j < |items| && items[j].ok;
          assert oks[j];
        }
        if SomeFrom(oks, i) {
          var j :| i <= j < |oks| && oks[j];
          assert items[j].ok;
        }
      }
      if SomeFrom(oks, i) {
        var sep: seq<string> := if 0 < i && oks[i - 1] then [""] else [];
        assert Lead(items, "\n", i) == Unlines(sep);
        UnlinesAppend(sep, blocks[i]);
        UnlinesAppend(sep + blocks[i], rest);
      } else {
        assert [] + rest == rest;
      }
    }
  }

  /** A block whose rows all succeed: its title line, then its rows, as lines. */
  lemma BlockLines(title: string, rows: seq<Attempt>)
    requires |rows| > 0 && forall i :: 0 <= i < |rows| ==> rows[i].ok
    ensures Block(title, rows).ok
    ensures Block(title, rows).out + "\n" == Unlines([title] + Outs(rows))
  {
    ListAllOk(rows, "\n");
    JoinUnlines(Outs(rows));
    assert ([title] + Outs(rows))[1..] == Outs(rows);
  }

  /** A block succeeds exactly when one of its rows does. */
  lemma BlockOk(title: string, rows: seq<Attempt>)
    ensures Block(title, rows).ok <==> AnyOk(rows)
  {
    ListPieces(rows, "\n");
  }

  /** A node block is written exactly when some node row can be. */
  lemma NodesBlockOk<R>(title: string, nodes: seq<seq<R>>, render: R -> string)
    ensures Block(title, NodeItems(nodes, render)).ok <==> NodesGenerate(nodes)
  {
    var items := NodeItems(nodes, render);
    NodeItemsRows(nodes, render);
    BlockOk(title, items);
    if AnyOk(items) {
      var i :| 0 <= i < |items| && items[i].ok;
      assert |nodes[i]| > 0;
    }
    if NodesGenerate(nodes) {
      var i :| 0 <= i < |nodes| && |nodes[i]| > 0;
      assert items[i].ok;
    }
  }

  /** A node block whose every row can be written: the title line and the numbered node rows. */
  lemma NodesBlockLines<R>(title: string, nodes: seq<seq<R>>, render: R -> string)
    requires NodesComplete(nodes)
    ensures Block(title, NodeItems(nodes, render)).ok
    ensures Block(title, NodeItems(nodes, render)).out + "\n" == Unlines([title] + Indexed("", NodeRows(nodes, render), 1))
  {
    var items := NodeItems(nodes, render);
    NodeItemsRows(nodes, render);
    BlockLines(title, items);
    assert Outs(items) == Indexed("", NodeRows(nodes, render), 1);
  }

  /** An element block is written exactly when some element row can be. */
  lemma ElementsBlockOk(title: string, es: seq<AM.Element>)
    ensures Block(title, ElementItems(es)).ok <==> ElementsGenerate(es)
  {
    var items := ElementItems(es);
    ElementItemsRows(es);
    BlockOk(title, items);
    if AnyOk(items) {
      var i :| 0 <= i < |items| && items[i].ok;
      assert |es[i].connectivity| > 0;
    }
    if ElementsGenerate(es) {
      var i :| 0 <= i < |es| && |es[i].connectivity| > 0;
      assert items[i].ok;
    }
  }

  /** An element block whose every row can be written: the title line and the numbered element rows. */
  lemma ElementsBlockLines(title: string, es: seq<AM.Element>)
    requires ElementsComplete(es)
    ensures Block(title, ElementItems(es)).ok
    ensures Block(title, ElementItems(es)).out + "\n" == Unlines([title] + Indexed("", ElementRows(es), 1))
  {
    var items := ElementItems(es);
    ElementItemsRows(es);
    BlockLines(title, items);
    assert Outs(items) == Indexed("", ElementRows(es), 1);
  }

  /** An element block none of whose rows can be written fails after its title and each row's start. */
  lemma ElementsBlockFails(title: string, es: seq<AM.Element>)
    requires !ElementsGenerate(es)
    ensures Block(title, ElementItems(es)) == Attempt(title + "\n" + Concat(ElementItems(es)), false)
  {
    ElementsBlockOk(title, es);
    BlockOk(title, ElementItems(es));
  }

  /** A values block is written exactly when there are values. */
  lemma ValuesBlockOk(title: string, values: seq<nat>)
    ensures ValuesRule(title, values).ok <==> |values| > 0
  {
    var items := Numbered("", Lits(NatTexts(values)), 1);
    BlockOk(title, items);
    if |values| > 0 {
      assert items[0].ok;
    }
  }

  /** A values block: the title line and the numbered values. */
  lemma ValuesBlockLines(title: string, values: seq<nat>)
    requires |values| > 0
    ensures ValuesRule(title, values).ok
    ensures ValuesRule(title, values).out + "\n" == Unlines([title] + Indexed("", NatTexts(values), 1))
  {
    var items := Numbered("", Lits(NatTexts(values)), 1);
    BlockLines(title, items);
    assert Outs(items) == Indexed("", NatTexts(values), 1);
  }

  /** The labels never fail: the labels block, or nothing when there are no labels. */
  lemma LabelsBlock(labels: seq<string>)
    ensures LabelsRule(labels).ok
    ensures |labels| == 0 ==> LabelsRule(labels).out == ""
    ensures |labels| > 0 ==>
              LabelsRule(labels).out + "\n" == Unlines(["* Attributes/matusage labels"] + Indexed("* ", labels, 1))
  {
    var items := Numbered("* ", Lits(labels), 1);
    var title := "* Attributes/matusage labels";
    BlockOk(title, items);
    if |labels| > 0 {
      assert items[0].ok;
      BlockLines(title, items);
      assert Outs(items) == Indexed("* ", labels, 1);
    }
  }


  function NodeRows<R>(nodes: seq<seq<R>>, render: R -> string): (r: seq<string>)
    ensures |r| == |nodes|
  {
    seq(|nodes|, i requires 0 <= i < |nodes| => NodeRow(nodes[i], render))
  }

  function ElementRows(es: seq<AM.Element>): (r: seq<string>)
    ensures |r| == |es|
  {
    seq(|es|, i requires 0 <= i < |es| => ElementRow(es[i]))
  }

  /** Reads indexed element rows back. */
  function ReadElementRows(rows: seq<string>): (r: Option<seq<AM.Element>>)
    ensures r.Some? ==> |r.value| == |rows|
  {
    if |rows| == 0 then Some([])
    else
      match ReadElementRow(rows[0])
      case None => None
      case Some(e) =>
        match ReadElementRows(rows[1..])
        case None => None
        case Some(rest) => Some([e] + rest)
  }

  lemma {:induction false} ElementRowsRoundTrip(es: seq<AM.Element>)
    requires forall i :: 0 <= i < |es| ==> |es[i].connectivity| > 0
    ensures ReadElementRows(ElementRows(es)) == Some(es)
  {
    if |es| > 0 {
      ElementRowRoundTrip(es[0]);
      assert ElementRows(es)[1..] == ElementRows(es[1..]);
      ElementRowsRoundTrip(es[1..]);
      assert [es[0]] + es[1..] == es;
    }
  }

  /** A block of indexed element rows reads back to the elements, numbered from 1. */
  lemma ElementBlockRoundTrip(es: seq<AM.Element>)
    requires forall i :: 0 <= i < |es| ==> |es[i].connectivity| > 0
    ensures ReadIndexed("", Indexed("", ElementRows(es), 1), 1) == Some(ElementRows(es))
    ensures ReadElementRows(ElementRows(es)) == Some(es)
  {
    ReadIndexedRoundTrip("", ElementRows(es), 1);
    ElementRowsRoundTrip(es);
  }
}
