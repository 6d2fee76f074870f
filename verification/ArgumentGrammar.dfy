/** What counts as closed text, by a grammar of its own: characters, quoted sections with
    escapes, and brackets around closed text. The scanner agrees with it. */
module ArgumentGrammar {
  import opened JsText
  import opened Outcomes
  import opened ArgumentScanner

  /** One character of a quoted section, or two that begin with a backslash. */
  datatype QuotedChar = Ordinary(c: char) | Escaped(c: char)

  datatype Node =
    | Plain(c: char)
    | Quote(mark: char, body: seq<QuotedChar>)
    | Group(open: char, inner: seq<Node>)

  type Closed = seq<Node>

  function Closer(open: char): char {
    if open == '(' then ')' else if open == '[' then ']' else '}'
  }

  predicate IsValidQuoted(mark: char, body: seq<QuotedChar>) {
    forall i | 0 <= i < |body| && body[i].Ordinary? :: body[i].c != mark && body[i].c != '\\'
  }

  predicate IsValidNode(node: Node)
    decreases node, 0
  {
    match node
    case Plain(c) => c !in {'\'', '"', '`', '(', ')', '[', ']', '{', '}'}
    case Quote(mark, body) => mark in {'\'', '"', '`'} && IsValidQuoted(mark, body)
    case Group(open, inner) => open in {'(', '[', '{'} && IsValid(inner)
  }

  predicate IsValid(nodes: Closed)
    decreases nodes, 1
  {
    forall i | 0 <= i < |nodes| :: IsValidNode(nodes[i])
  }

  function QuotedText(body: seq<QuotedChar>): string {
    if body == [] then ""
    else (match body[0] case Ordinary(c) => [c] case Escaped(c) => ['\\', c]) + QuotedText(body[1..])
  }

  function NodeText(node: Node): string
    decreases node, 0
  {
    match node
    case Plain(c) => [c]
    case Quote(mark, body) => [mark] + QuotedText(body) + [mark]
    case Group(open, inner) => [open] + Text(inner) + [Closer(open)]
  }

  function Text(nodes: Closed): string
    decreases nodes, 1
  {
    if nodes == [] then "" else NodeText(nodes[0]) + Text(nodes[1..])
  }

  /** A comma that stands in no quotes and no brackets. */
  predicate HasOuterComma(nodes: Closed) {
    Plain(',') in nodes
  }

  // ---- the scanner on closed text ----------------------------------------------------------

  lemma {:induction false} EndConcat(p: Position, a: string, b: string)
    ensures End(p, a + b) == End(End(p, a), b)
    ensures HasNoTopComma(p, a + b) <==> HasNoTopComma(p, a) && HasNoTopComma(End(p, a), b)
    decreases a
  {
    if a == "" {
      assert a + b == b;
    } else {
      assert (a + b)[0] == a[0] && (a + b)[1..] == a[1..] + b;
      if IsTop(p) && a[0] == ',' { EndConcat(p, a[1..], b); } else { EndConcat(Advance(p, a[0]), a[1..], b); }
    }
  }

  lemma EndOfOne(p: Position, c: char)
    ensures End(p, [c]) == if IsTop(p) && c == ',' then p else Advance(p, c)
    ensures HasNoTopComma(p, [c]) <==> !(IsTop(p) && c == ',')
  {
    assert [c][1..] == "";
  }

  /** What is between quotes changes nothing and cuts nowhere. */
  lemma {:induction false} QuotedIsClosed(p: Position, mark: char, body: seq<QuotedChar>)
    requires IsValidQuoted(mark, body) && p.quoting == Quoting(Some(mark), false)
    ensures End(p, QuotedText(body)) == p && HasNoTopComma(p, QuotedText(body))
  {
    if body != [] {
      var rest := body[1..];
      assert IsValidQuoted(mark, rest) by { assert forall i | 0 <= i < |rest| :: rest[i] == body[i + 1]; }
      QuotedIsClosed(p, mark, rest);
      match body[0]
      case Ordinary(c) =>
        EndOfOne(p, c);
        EndConcat(p, [c], QuotedText(rest));
      case Escaped(c) =>
        EscapeIsClosed(p, mark, c);
        EndConcat(p, ['\\', c], QuotedText(rest));
    }
  }

  lemma EscapeIsClosed(p: Position, mark: char, c: char)
    requires p.quoting == Quoting(Some(mark), false)
    ensures End(p, ['\\', c]) == p && HasNoTopComma(p, ['\\', c])
  {
    EndOfOne(p, '\\');
    EndOfOne(Advance(p, '\\'), c);
    EndConcat(p, ['\\'], [c]);
    assert ['\\', c] == ['\\'] + [c];
  }

  /** The position between the brackets of a group. */
  function Inside(p: Position, open: char): Position {
    if open == '(' then p.(paren := p.paren + 1)
    else if open == '[' then p.(bracket := p.bracket + 1)
    else p.(brace := p.brace + 1)
  }

  lemma {:induction false} NodeIsClosed(p: Position, node: Node)
    requires IsValidNode(node) && p.quoting == UNQUOTED
    ensures End(p, NodeText(node)) == p
    ensures HasNoTopComma(p, NodeText(node)) <==> !IsTop(p) || node != Plain(',')
    decreases node, 0
  {
    match node
    case Plain(c) => EndOfOne(p, c);
    case Quote(mark, body) => QuoteIsClosed(p, mark, body);
    case Group(open, inner) =>
      ClosedIsClosed(Inside(p, open), inner);
      GroupIsClosed(p, open, Text(inner));
  }

  lemma QuoteIsClosed(p: Position, mark: char, body: seq<QuotedChar>)
    requires mark in {'\'', '"', '`'} && IsValidQuoted(mark, body) && p.quoting == UNQUOTED
    ensures End(p, [mark] + QuotedText(body) + [mark]) == p
    ensures HasNoTopComma(p, [mark] + QuotedText(body) + [mark])
  {
    var q := p.(quoting := Quoting(Some(mark), false));
    EndOfOne(p, mark);
    QuotedIsClosed(q, mark, body);
    EndOfOne(q, mark);
    EndConcat(p, [mark], QuotedText(body));
    EndConcat(p, [mark] + QuotedText(body), [mark]);
  }

  lemma GroupIsClosed(p: Position, open: char, inner: string)
    requires open in {'(', '[', '{'} && p.quoting == UNQUOTED
    requires End(Inside(p, open), inner) == Inside(p, open) && HasNoTopComma(Inside(p, open), inner)
    ensures End(p, [open] + inner + [Closer(open)]) == p
    ensures HasNoTopComma(p, [open] + inner + [Closer(open)])
  {
    EndOfOne(p, open);
    EndOfOne(Inside(p, open), Closer(open));
    EndConcat(p, [open], inner);
    EndConcat(p, [open] + inner, [Closer(open)]);
  }

  /** Closed text leaves the scanner where it was, and has a top comma exactly if, at
      the top, a comma stands in no quotes and no brackets of it. */
  lemma {:induction false} ClosedIsClosed(p: Position, nodes: Closed)
    requires IsValid(nodes) && p.quoting == UNQUOTED
    ensures End(p, Text(nodes)) == p
    ensures HasNoTopComma(p, Text(nodes)) <==> !IsTop(p) || !HasOuterComma(nodes)
    decreases nodes, 1
  {
    if nodes != [] {
      assert IsValidNode(nodes[0]);
      assert IsValid(nodes[1..]) by { assert forall i | 0 <= i < |nodes[1..]| :: nodes[1..][i] == nodes[i + 1]; }
      NodeIsClosed(p, nodes[0]);
      ClosedIsClosed(p, nodes[1..]);
      EndConcat(p, NodeText(nodes[0]), Text(nodes[1..]));
      assert nodes == [nodes[0]] + nodes[1..];
    }
  }

  /** Closed text, however many commas there are in its quotes and brackets, is one piece
      exactly if it has none outside of them. */
  lemma InnerCommasNeverCut(nodes: Closed)
    requires IsValid(nodes)
    ensures Pieces(TOP, Text(nodes)) == [Text(nodes)] <==> !HasOuterComma(nodes)
  {
    ClosedIsClosed(TOP, nodes);
    OnePiece(TOP, Text(nodes));
  }

  // ---- arguments ---------------------------------------------------------------------------

  function Texts(args: seq<Closed>): seq<string> {
    seq(|args|, i requires 0 <= i < |args| => Text(args[i]))
  }

  ghost predicate AreArguments(args: seq<Closed>) {
    forall i | 0 <= i < |args| :: IsValid(args[i]) && !HasOuterComma(args[i])
  }

  lemma ClosedAreSeparable(args: seq<Closed>)
    requires AreArguments(args)
    ensures AreSeparable(Texts(args))
  {
    forall i | 0 <= i < |args| ensures HasNoTopComma(TOP, Texts(args)[i]) && IsTop(End(TOP, Texts(args)[i])) {
      ClosedIsClosed(TOP, args[i]);
    }
  }

  lemma {:induction false} TrimAllAt(parts: seq<string>, i: nat)
    requires i < |parts|
    ensures |TrimAll(parts)| == |parts| && TrimAll(parts)[i] == Trim(parts[i])
  {
    if |parts| > 1 { TrimAllAt(parts[1..], if i > 0 then i - 1 else 0); }
  }

  /** The splitter reads closed arguments with commas between them as those arguments, each
      trimmed, and without the last one if nothing is left of it. */
  lemma ClosedArgumentsAreSplit(args: seq<Closed>)
    requires AreArguments(args) && args != []
    ensures var texts, r := Texts(args), Arguments(Pieces(TOP, JoinArguments(Texts(args))));
            && |r| == (if IsBlank(texts[|args| - 1]) then |args| - 1 else |args|)
            && forall i | 0 <= i < |r| :: r[i] == Trim(texts[i])
  {
    ClosedArePieces(args);
    ArgumentsAt(Texts(args));
  }

  lemma ClosedArePieces(args: seq<Closed>)
    requires AreArguments(args) && args != []
    ensures Pieces(TOP, JoinArguments(Texts(args))) == Texts(args)
  {
    ClosedAreSeparable(args);
    PiecesOfJoin(Texts(args));
  }

  lemma ArgumentsAt(pieces: seq<string>)
    requires pieces != []
    ensures var r := Arguments(pieces);
            && |r| == (if IsBlank(pieces[|pieces| - 1]) then |pieces| - 1 else |pieces|)
            && forall i | 0 <= i < |r| :: r[i] == Trim(pieces[i])
  {
    var init, last := pieces[..|pieces| - 1], pieces[|pieces| - 1];
    TrimFacts(last);
    TrimAllLength(init);
    forall i | 0 <= i < |init| ensures TrimAll(init)[i] == Trim(pieces[i]) {
      TrimAllAt(init, i);
    }
  }

  /** The same of a whole call: its parenthesis is the one that closes it, and the text
      between is read as its arguments. */
  lemma ClosedCallIsRead(before: string, args: seq<Closed>, after: string)
    requires AreArguments(args) && args != []
    ensures var inner := JoinArguments(Texts(args));
            var source, close := before + "(" + inner + ")" + after, |before| + 1 + |inner|;
            && IsPartner(source, |before|, close)
            && (forall other :: IsPartner(source, |before|, other) ==> other == close)
            && source[|before| + 1..close] == inner
  {
    var inner := JoinArguments(Texts(args));
    var source, close := before + "(" + inner + ")" + after, |before| + 1 + |inner|;
    forall i | 0 <= i < |args| ensures IsBalanced(UNQUOTED, 0, Texts(args)[i]) {
      ClosedIsBalanced(args[i], 0, "");
      assert Text(args[i]) + "" == Text(args[i]);
    }
    JoinIsBalanced(Texts(args));
    assert source[|before| + 1..close] == inner;
    PartnerIsUnique(source, |before|, close);
  }

  // ---- parentheses -------------------------------------------------------------------------

  lemma OrdinaryIsBalanced(mark: char, c: char, depth: nat, tail: string)
    requires c != mark && c != '\\'
    ensures IsBalanced(Quoting(Some(mark), false), depth, [c] + tail)
            <==> IsBalanced(Quoting(Some(mark), false), depth, tail)
  {
    assert ([c] + tail)[1..] == tail;
  }

  lemma EscapedIsBalanced(mark: char, c: char, depth: nat, tail: string)
    ensures IsBalanced(Quoting(Some(mark), false), depth, ['\\'] + ([c] + tail))
            <==> IsBalanced(Quoting(Some(mark), false), depth, tail)
  {
    assert (['\\'] + ([c] + tail))[1..] == [c] + tail;
    assert IsBalanced(Quoting(Some(mark), true), depth, [c] + tail)
           <==> IsBalanced(Quoting(Some(mark), false), depth, ([c] + tail)[1..]);
    assert ([c] + tail)[1..] == tail;
  }

  lemma {:induction false} QuotedIsBalanced(mark: char, body: seq<QuotedChar>, depth: nat, rest: string)
    requires IsValidQuoted(mark, body)
    ensures IsBalanced(Quoting(Some(mark), false), depth, QuotedText(body) + rest)
            <==> IsBalanced(Quoting(Some(mark), false), depth, rest)
  {
    if body == [] {
      assert QuotedText(body) + rest == rest;
    } else {
      var tail := QuotedText(body[1..]) + rest;
      assert IsValidQuoted(mark, body[1..]) by {
        assert forall i | 0 <= i < |body[1..]| :: body[1..][i] == body[i + 1];
      }
      QuotedIsBalanced(mark, body[1..], depth, rest);
      match body[0]
      case Ordinary(c) =>
        OrdinaryIsBalanced(mark, c, depth, tail);
        assert QuotedText(body) + rest == [c] + tail;
      case Escaped(c) =>
        EscapedIsBalanced(mark, c, depth, tail);
        assert QuotedText(body) + rest == ['\\'] + ([c] + tail);
    }
  }

  lemma {:induction false} NodeIsBalanced(node: Node, depth: nat, rest: string)
    requires IsValidNode(node)
    ensures IsBalanced(UNQUOTED, depth, NodeText(node) + rest) <==> IsBalanced(UNQUOTED, depth, rest)
    decreases node, 0
  {
    match node
    case Plain(c) => assert ([c] + rest)[1..] == rest;
    case Quote(mark, body) =>
      var tail := [mark] + rest;
      assert NodeText(node) + rest == [mark] + (QuotedText(body) + tail);
      assert ([mark] + (QuotedText(body) + tail))[1..] == QuotedText(body) + tail && tail[1..] == rest;
      QuotedIsBalanced(mark, body, depth, tail);
    case Group(open, inner) =>
      var tail := [Closer(open)] + rest;
      assert NodeText(node) + rest == [open] + (Text(inner) + tail);
      assert ([open] + (Text(inner) + tail))[1..] == Text(inner) + tail && tail[1..] == rest;
      ClosedIsBalanced(inner, if open == '(' then depth + 1 else depth, tail);
  }

  /** Closed text closes every parenthesis that it opens, and no other. */
  lemma {:induction false} ClosedIsBalanced(nodes: Closed, depth: nat, rest: string)
    requires IsValid(nodes)
    ensures IsBalanced(UNQUOTED, depth, Text(nodes) + rest) <==> IsBalanced(UNQUOTED, depth, rest)
    decreases nodes, 1
  {
    if nodes == [] {
      assert Text(nodes) + rest == rest;
    } else {
      assert IsValidNode(nodes[0]);
      assert IsValid(nodes[1..]) by { assert forall i | 0 <= i < |nodes[1..]| :: nodes[1..][i] == nodes[i + 1]; }
      assert Text(nodes) + rest == NodeText(nodes[0]) + (Text(nodes[1..]) + rest);
      NodeIsBalanced(nodes[0], depth, Text(nodes[1..]) + rest);
      ClosedIsBalanced(nodes[1..], depth, rest);
    }
  }

  // ---- text that is not closed ---------------------------------------------------------------

  /** A closing bracket without an opening one is an ordinary character. */
  lemma StrayClosersAreIgnored(close: char, s: string)
    requires close in {')', ']', '}'}
    ensures Pieces(TOP, [close] + s) == [[close] + Pieces(TOP, s)[0]] + Pieces(TOP, s)[1..]
  {
    assert ([close] + s)[1..] == s;
  }
}
