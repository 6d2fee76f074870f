/** Finding the arguments of a call in source text (`findMatchingParen`,
    `splitTopLevelArguments`): quotes, escapes and brackets. */
module ArgumentScanner {
  import opened JsText
  import opened Outcomes

  // ---- quotes --------------------------------------------------------------------------

  datatype Quoting = Quoting(quote: Option<char>, escaped: bool)

  const UNQUOTED := Quoting(None, false)

  predicate IsQuote(ch: char) {
    ch == '\'' || ch == '"' || ch == '`'
  }

  /** The quoting after one more character. */
  function Quoted(q: Quoting, ch: char): Quoting {
    if q.quote.None? then (if IsQuote(ch) then Quoting(Some(ch), q.escaped) else q)
    else if q.escaped then q.(escaped := false)
    else if ch == '\\' then q.(escaped := true)
    else if ch == q.quote.value then Quoting(None, false)
    else q
  }

  class QuoteScanState {
    var quote: Option<char>
    var escaped: bool

    ghost function View(): Quoting
      reads this
    {
      Quoting(quote, escaped)
    }

    constructor ()
      ensures View() == UNQUOTED
    {
      quote, escaped := None, false;
    }

    method BeginQuotedSection(ch: char) returns (began: bool)
      modifies this
      ensures began == IsQuote(ch)
      ensures began ==> quote == Some(ch) && escaped == old(escaped)
      ensures began && old(quote).None? ==> View() == Quoted(old(View()), ch)
      ensures !began ==> View() == old(View())
    {
      if ch != '\'' && ch != '"' && ch != '`' {
        return false;
      }
      quote := Some(ch);
      return true;
    }

    method ConsumeQuotedChar(ch: char) returns (consumed: bool)
      modifies this
      ensures consumed == old(quote).Some?
      ensures View() == if consumed then Quoted(old(View()), ch) else old(View())
    {
      if quote.None? { return false; }
      if escaped {
        escaped := false;
        return true;
      }
      if ch == '\\' {
        escaped := true;
        return true;
      }
      if ch == quote.value {
        quote := None;
      }
      return true;
    }
  }

  // ---- the matching parenthesis --------------------------------------------------------

  /** Read from quoting `q` at depth `depth`, the text closes everything it opens,
      closes nothing else, and ends outside quotes. */
  predicate IsBalanced(q: Quoting, depth: nat, s: string)
    decreases s
  {
    if s == "" then depth == 0 && q.quote.None?
    else if q.quote.Some? || IsQuote(s[0]) then IsBalanced(Quoted(q, s[0]), depth, s[1..])
    else if s[0] == '(' then IsBalanced(q, depth + 1, s[1..])
    else if s[0] == ')' then depth > 0 && IsBalanced(q, depth - 1, s[1..])
    else IsBalanced(q, depth, s[1..])
  }

  /** The parenthesis at `close` is the partner of the one at `open`. */
  predicate IsPartner(source: string, open: nat, close: int) {
    open < close < |source| && source[close] == ')' && IsBalanced(UNQUOTED, 0, source[open + 1..close])
  }

  /** The distance from the front of `s` to the parenthesis that closes depth
      `depth`, or -1. */
  function Closing(q: Quoting, depth: nat, s: string): (r: int)
    requires depth >= 1
    ensures -1 <= r < |s|
    decreases s
  {
    if s == "" then -1
    else if q.quote.None? && s[0] == ')' && depth == 1 then 0
    else
      var depth' := if q.quote.None? && s[0] == '(' then depth + 1
                    else if q.quote.None? && s[0] == ')' then depth - 1 else depth;
      var r := Closing(Quoted(q, s[0]), depth', s[1..]);
      if r < 0 then -1 else r + 1
  }

  method FindMatchingParen(source: string, openIndex: nat) returns (r: int)
    ensures r >= 0 ==> IsPartner(source, openIndex, r)
    ensures r < 0 ==> r == -1 && forall close :: !IsPartner(source, openIndex, close)
  {
    var depth := 1;
    var quoteState := new QuoteScanState();
    var i := openIndex + 1;
    ghost var tail := if openIndex < |source| then source[openIndex + 1..] else "";
    while i < |source|
      invariant fresh(quoteState) && i >= openIndex + 1 && depth >= 1
      invariant i <= |source| || openIndex >= |source|
      invariant i <= |source| ==>
                  Closing(UNQUOTED, 1, tail) ==
                  var rest := Closing(quoteState.View(), depth, source[i..]);
                  if rest < 0 then -1 else rest + (i - openIndex - 1)
    {
      var ch := source[i];
      assert source[i..][1..] == source[i + 1..];
      var consumed := quoteState.ConsumeQuotedChar(ch);
      if !consumed {
        var began := quoteState.BeginQuotedSection(ch);
        if !began {
          if ch == '(' {
            depth := depth + 1;
          } else if ch == ')' {
            depth := depth - 1;
            if depth == 0 {
              ClosingIsPartner(source, openIndex);
              return i;
            }
          }
        }
      }
      i := i + 1;
    }
    if openIndex < |source| { ClosingIsPartner(source, openIndex); }
    return -1;
  }

  /** `Closing` finds a position exactly where what lies before it is balanced. */
  lemma {:induction false} ClosingExact(q: Quoting, depth: nat, s: string, k: nat)
    requires depth >= 1 && k < |s|
    ensures Closing(q, depth, s) == k <==> s[k] == ')' && IsBalanced(q, depth - 1, s[..k])
    decreases s
  {
    if k > 0 {
      assert s[..k][1..] == s[1..][..k - 1];
      var depth' := if q.quote.None? && s[0] == '(' then depth + 1
                    else if q.quote.None? && s[0] == ')' then depth - 1 else depth;
      if depth' >= 1 { ClosingExact(Quoted(q, s[0]), depth', s[1..], k - 1); }
    }
  }

  lemma ClosingIsPartner(source: string, open: nat)
    requires open < |source|
    ensures var r := Closing(UNQUOTED, 1, source[open + 1..]);
            if r >= 0 then IsPartner(source, open, open + 1 + r)
            else forall close :: !IsPartner(source, open, close)
  {
    var tail := source[open + 1..];
    forall close | open < close < |source|
      ensures Closing(UNQUOTED, 1, tail) == close - open - 1 <==> IsPartner(source, open, close)
    {
      ClosingExact(UNQUOTED, 1, tail, close - open - 1);
      assert tail[..close - open - 1] == source[open + 1..close];
    }
  }

  // ---- splitting -----------------------------------------------------------------------

  /** Where the splitter stands: quoting, and the three bracket depths. */
  datatype Position = Position(quoting: Quoting, paren: nat, bracket: nat, brace: nat)

  const TOP := Position(UNQUOTED, 0, 0, 0)

  function Less1(depth: nat): nat {
    if depth > 0 then depth - 1 else 0
  }

  function Advance(p: Position, ch: char): Position {
    if p.quoting.quote.Some? || IsQuote(ch) then p.(quoting := Quoted(p.quoting, ch))
    else if ch == '(' then p.(paren := p.paren + 1)
    else if ch == ')' then p.(paren := Less1(p.paren))
    else if ch == '[' then p.(bracket := p.bracket + 1)
    else if ch == ']' then p.(bracket := Less1(p.bracket))
    else if ch == '{' then p.(brace := p.brace + 1)
    else if ch == '}' then p.(brace := Less1(p.brace))
    else p
  }

  predicate IsTop(p: Position) {
    p.quoting.quote.None? && p.paren == 0 && p.bracket == 0 && p.brace == 0
  }

  /** The text cut at its top-level commas. */
  function Pieces(p: Position, s: string): (r: seq<string>)
    ensures r != []
    decreases s
  {
    if s == "" then [""]
    else if IsTop(p) && s[0] == ',' then [""] + Pieces(p, s[1..])
    else
      var rest := Pieces(Advance(p, s[0]), s[1..]);
      [[s[0]] + rest[0]] + rest[1..]
  }

  function TrimAll(parts: seq<string>): seq<string> {
    if parts == [] then [] else [Trim(parts[0])] + TrimAll(parts[1..])
  }

  /** Every piece trimmed; the last one only if something of it is left. */
  function Arguments(pieces: seq<string>): seq<string>
    requires pieces != []
  {
    var last := Trim(pieces[|pieces| - 1]);
    TrimAll(pieces[..|pieces| - 1]) + if last == "" then [] else [last]
  }

  /** The splitting loop from a position on, with `out` emitted and `current` collected. */
  function Continue(p: Position, tail: string, out: seq<string>, current: string): seq<string>
    decreases tail
  {
    if tail == "" then (if Trim(current) == "" then out else out + [Trim(current)])
    else if IsTop(p) && tail[0] == ',' then Continue(p, tail[1..], out + [Trim(current)], "")
    else Continue(Advance(p, tail[0]), tail[1..], out, current + [tail[0]])
  }

  method SplitTopLevelArguments(source: string) returns (out: seq<string>)
    ensures out == Arguments(Pieces(TOP, source))
  {
    out := [];
    var current := "";
    var parenDepth, bracketDepth, braceDepth := 0, 0, 0;
    var quoteState := new QuoteScanState();
    ghost var expected, at := Continue(TOP, source, [], ""), TOP;
    assert source[0..] == source;
    for i := 0 to |source|
      invariant fresh(quoteState) && at == Position(quoteState.View(), parenDepth, bracketDepth, braceDepth)
      invariant Continue(at, source[i..], out, current) == expected
    {
      var ch := source[i];
      ContinueNext(at, source, i, out, current);
      var isCut := quoteState.quote.None? && ch == ',' && parenDepth == 0 && bracketDepth == 0 && braceDepth == 0;
      assert isCut <==> IsTop(at) && ch == ',';
      parenDepth, bracketDepth, braceDepth := TrackChar(quoteState, ch, parenDepth, bracketDepth, braceDepth);
      assert Position(quoteState.View(), parenDepth, bracketDepth, braceDepth) == Advance(at, ch);
      if isCut {
        CommaAtTop(at);
        out := out + [Trim(current)];
        current := "";
        assert Continue(at, source[i + 1..], out, current) == expected;
      } else {
        at := Advance(at, ch);
        current := current + [ch];
        assert Continue(at, source[i + 1..], out, current) == expected;
      }
    }
    assert source[|source|..] == "";
    if Trim(current) != "" {
      out := out + [Trim(current)];
    }
    SplittingMakesArguments(source);
  }

  lemma CommaAtTop(p: Position)
    requires IsTop(p)
    ensures Advance(p, ',') == p
  {
  }

  lemma ContinueNext(p: Position, source: string, i: nat, out: seq<string>, current: string)
    requires i < |source|
    ensures Continue(p, source[i..], out, current) ==
            if IsTop(p) && source[i] == ',' then Continue(p, source[i + 1..], out + [Trim(current)], "")
            else Continue(Advance(p, source[i]), source[i + 1..], out, current + [source[i]])
  {
    assert source[i..][0] == source[i] && source[i..][1..] == source[i + 1..];
  }

  lemma SplittingMakesArguments(source: string)
    ensures Continue(TOP, source, [], "") == Arguments(Pieces(TOP, source))
  {
    var all := Pieces(TOP, source);
    ContinueIsArguments(TOP, source, [], "");
    assert "" + all[0] == all[0];
    assert [all[0]] + all[1..] == all;
    assert [] + Arguments(all) == Arguments(all);
  }

  lemma {:induction false} ContinueIsArguments(p: Position, tail: string, out: seq<string>, current: string)
    ensures Continue(p, tail, out, current) ==
            out + Arguments([current + Pieces(p, tail)[0]] + Pieces(p, tail)[1..])
    decreases tail
  {
    if tail == "" {
      assert current + "" == current && [current] + [] == [current];
    } else if IsTop(p) && tail[0] == ',' {
      ContinueIsArguments(p, tail[1..], out + [Trim(current)], "");
      CutPiece(Pieces(p, tail[1..]), out, current);
    } else {
      ContinueIsArguments(Advance(p, tail[0]), tail[1..], out, current + [tail[0]]);
      GrowPiece(Pieces(Advance(p, tail[0]), tail[1..]), tail[0], current);
    }
  }

  lemma CutPiece(rest: seq<string>, out: seq<string>, current: string)
    requires rest != []
    ensures var now := [""] + rest;
            out + Arguments([current + now[0]] + now[1..]) ==
            (out + [Trim(current)]) + Arguments(["" + rest[0]] + rest[1..])
  {
    var now := [""] + rest;
    assert now[1..] == rest && current + "" == current && "" + rest[0] == rest[0];
    assert [rest[0]] + rest[1..] == rest;
    FirstArgument(current, rest);
    assert out + ([Trim(current)] + Arguments(rest)) == (out + [Trim(current)]) + Arguments(rest);
  }

  lemma GrowPiece(rest: seq<string>, ch: char, current: string)
    requires rest != []
    ensures var now := [[ch] + rest[0]] + rest[1..];
            [current + now[0]] + now[1..] == [(current + [ch]) + rest[0]] + rest[1..]
  {
    assert current + ([ch] + rest[0]) == (current + [ch]) + rest[0];
  }

  /** Quoting and depth counters after one more character; the counters never go
      below zero. */
  method TrackChar(quoteState: QuoteScanState, ch: char, paren: nat, bracket: nat, brace: nat)
    returns (paren': nat, bracket': nat, brace': nat)
    modifies quoteState
    ensures Position(quoteState.View(), paren', bracket', brace') ==
            Advance(Position(old(quoteState.View()), paren, bracket, brace), ch)
  {
    paren', bracket', brace' := paren, bracket, brace;
    var consumed := quoteState.ConsumeQuotedChar(ch);
    if consumed { return; }
    var began := quoteState.BeginQuotedSection(ch);
    if began { return; }
    if ch == '(' {
      paren' := paren + 1;
    } else if ch == ')' {
      if paren > 0 { paren' := paren - 1; }
    } else if ch == '[' {
      bracket' := bracket + 1;
    } else if ch == ']' {
      if bracket > 0 { bracket' := bracket - 1; }
    } else if ch == '{' {
      brace' := brace + 1;
    } else if ch == '}' {
      if brace > 0 { brace' := brace - 1; }
    }
  }

  lemma FirstArgument(first: string, rest: seq<string>)
    requires rest != []
    ensures Arguments([first] + rest) == [Trim(first)] + Arguments(rest)
  {
    var all := [first] + rest;
    assert all[..|all| - 1] == [first] + rest[..|rest| - 1];
    assert ([first] + rest[..|rest| - 1])[1..] == rest[..|rest| - 1];
  }

  // ---- printing and splitting ----------------------------------------------------------

  /** The arguments with commas between them. */
  function JoinArguments(args: seq<string>): string {
    if args == [] then "" else if |args| == 1 then args[0] else args[0] + "," + JoinArguments(args[1..])
  }

  function End(p: Position, s: string): Position
    decreases s
  {
    if s == "" then p
    else if IsTop(p) && s[0] == ',' then End(p, s[1..])
    else End(Advance(p, s[0]), s[1..])
  }

  /** Read from the top, the text has no comma at the top. */
  predicate HasNoTopComma(p: Position, s: string)
    decreases s
  {
    s == "" || (!(IsTop(p) && s[0] == ',') && HasNoTopComma(Advance(p, s[0]), s[1..]))
  }

  /** What a caller must print for the splitter to read it back. */
  ghost predicate ArePrintable(args: seq<string>) {
    AllTrimmed(args) && AreSeparable(args) && (args != [] ==> args[|args| - 1] != "")
  }

  predicate AreSeparable(args: seq<string>) {
    && (forall i | 0 <= i < |args| :: HasNoTopComma(TOP, args[i]))
    && (forall i | 0 <= i < |args| - 1 :: IsTop(End(TOP, args[i])))
  }

  /** Outside quotes no escape is pending. */
  predicate IsSteady(p: Position) {
    p.quoting.quote.None? ==> !p.quoting.escaped
  }

  lemma {:induction false} EndIsSteady(p: Position, s: string)
    requires IsSteady(p)
    ensures IsSteady(End(p, s))
    decreases s
  {
    if s != "" {
      if IsTop(p) && s[0] == ',' { EndIsSteady(p, s[1..]); } else { EndIsSteady(Advance(p, s[0]), s[1..]); }
    }
  }

  /** Pieces of a concatenation: the cut in the middle is no comma. */
  function Glue(a: seq<string>, b: seq<string>): seq<string>
    requires a != [] && b != []
  {
    a[..|a| - 1] + [a[|a| - 1] + b[0]] + b[1..]
  }

  lemma {:induction false} PiecesConcat(p: Position, a: string, b: string)
    ensures Pieces(p, a + b) == Glue(Pieces(p, a), Pieces(End(p, a), b))
    decreases a
  {
    var q := Pieces(End(p, a), b);
    if a == "" {
      assert a + b == b && "" + q[0] == q[0];
      assert [""][..0] + [q[0]] + q[1..] == q;
    } else {
      assert (a + b)[0] == a[0] && (a + b)[1..] == a[1..] + b;
      if IsTop(p) && a[0] == ',' {
        PiecesConcat(p, a[1..], b);
        GlueCons("", Pieces(p, a[1..]), q);
      } else {
        PiecesConcat(Advance(p, a[0]), a[1..], b);
        GlueGrow(a[0], Pieces(Advance(p, a[0]), a[1..]), q);
      }
    }
  }

  lemma GlueCons(first: string, a: seq<string>, b: seq<string>)
    requires a != [] && b != []
    ensures Glue([first] + a, b) == [first] + Glue(a, b)
  {
    assert ([first] + a)[..|a|] == [first] + a[..|a| - 1];
  }

  lemma GlueGrow(ch: char, a: seq<string>, b: seq<string>)
    requires a != [] && b != []
    ensures Glue([[ch] + a[0]] + a[1..], b) == [[ch] + Glue(a, b)[0]] + Glue(a, b)[1..]
  {
    var grown := [[ch] + a[0]] + a[1..];
    if |a| == 1 {
      assert [ch] + a[0] + b[0] == [ch] + (a[0] + b[0]);
    } else {
      assert grown[..|a| - 1] == [[ch] + a[0]] + a[1..|a| - 1];
      assert a[..|a| - 1] == [a[0]] + a[1..|a| - 1];
    }
  }

  lemma {:induction false} OnePiece(p: Position, s: string)
    ensures Pieces(p, s)[0] == s <==> HasNoTopComma(p, s)
    ensures HasNoTopComma(p, s) ==> Pieces(p, s) == [s]
    ensures |Pieces(p, s)| == 1 ==> HasNoTopComma(p, s)
    ensures |Pieces(p, s)[0]| <= |s|
    ensures |Pieces(p, s)| > 1 ==> |Pieces(p, s)[0]| < |s|
    decreases s
  {
    if s != "" && !(IsTop(p) && s[0] == ',') {
      var rest := Pieces(Advance(p, s[0]), s[1..]);
      OnePiece(Advance(p, s[0]), s[1..]);
      assert [s[0]] + s[1..] == s;
      assert ([s[0]] + rest[0])[1..] == rest[0];
    }
  }

  /** The text before a comma is one piece exactly when it has no top comma itself
      and the comma after it stands at the top. */
  lemma FirstPiece(arg: string, rest: string)
    ensures HasNoTopComma(TOP, arg) && IsTop(End(TOP, arg)) ==>
              Pieces(TOP, arg + "," + rest) == [arg] + Pieces(TOP, rest)
    ensures Pieces(TOP, arg + "," + rest)[0] == arg ==> HasNoTopComma(TOP, arg) && IsTop(End(TOP, arg))
  {
    var end := End(TOP, arg);
    var after := "," + rest;
    assert arg + "," + rest == arg + after;
    assert after[0] == ',' && after[1..] == rest;
    PiecesConcat(TOP, arg, after);
    OnePiece(TOP, arg);
    EndIsSteady(TOP, arg);
    if HasNoTopComma(TOP, arg) && IsTop(end) {
      assert arg + "" == arg;
    }
    if Pieces(TOP, arg + "," + rest)[0] == arg && HasNoTopComma(TOP, arg) {
      assert (arg + Pieces(end, after)[0])[|arg|..] == Pieces(end, after)[0];
      assert arg[|arg|..] == "";
    }
  }

  /** Cutting the printed arguments at top commas gives them back exactly when
      they are separable. */
  lemma {:induction false} PiecesOfJoin(args: seq<string>)
    requires args != []
    ensures Pieces(TOP, JoinArguments(args)) == args <==> AreSeparable(args)
    decreases |args|
  {
    var arg := args[0];
    if |args| == 1 {
      OnePiece(TOP, arg);
      assert args == [arg];
    } else {
      var rest := args[1..];
      PiecesOfJoin(rest);
      FirstPiece(arg, JoinArguments(rest));
      assert args == [arg] + rest;
      assert forall i | 0 <= i < |rest| :: rest[i] == args[i + 1];
      if AreSeparable(args) {
        assert AreSeparable(rest);
      }
      if Pieces(TOP, JoinArguments(args)) == args {
        assert Pieces(TOP, JoinArguments(args))[1..] == rest;
        forall i | 0 <= i < |args| ensures HasNoTopComma(TOP, args[i]) { if i > 0 { assert args[i] == rest[i - 1]; } }
        forall i | 0 <= i < |args| - 1 ensures IsTop(End(TOP, args[i])) { if i > 0 { assert args[i] == rest[i - 1]; } }
      }
    }
  }

  function TotalLength(parts: seq<string>): nat {
    if parts == [] then 0 else |parts[0]| + TotalLength(parts[1..])
  }

  lemma {:induction false} JoinLength(args: seq<string>)
    requires args != []
    ensures |JoinArguments(args)| == TotalLength(args) + |args| - 1
    decreases |args|
  {
    if |args| > 1 { JoinLength(args[1..]); } else { assert args[1..] == []; }
  }

  lemma {:induction false} PiecesLength(p: Position, s: string)
    ensures TotalLength(Pieces(p, s)) + |Pieces(p, s)| - 1 == |s|
    decreases s
  {
    if s != "" {
      if IsTop(p) && s[0] == ',' {
        PiecesLength(p, s[1..]);
        assert Pieces(p, s)[1..] == Pieces(p, s[1..]);
      } else {
        var rest := Pieces(Advance(p, s[0]), s[1..]);
        PiecesLength(Advance(p, s[0]), s[1..]);
        assert Pieces(p, s)[1..] == rest[1..];
      }
    } else {
      assert Pieces(p, s)[1..] == [];
    }
  }

  lemma {:induction false} TotalLengthAppend(parts: seq<string>, last: string)
    ensures TotalLength(parts + [last]) == TotalLength(parts) + |last|
  {
    if parts == [] {
      assert parts + [last] == [last] && [last][1..] == [];
    } else {
      assert (parts + [last])[1..] == parts[1..] + [last];
      TotalLengthAppend(parts[1..], last);
    }
  }

  ghost predicate AllTrimmed(parts: seq<string>) {
    forall i | 0 <= i < |parts| :: IsTrimmed(parts[i])
  }

  /** Trimming never lengthens, and keeps the total only if it changes nothing. */
  lemma {:induction false} TrimAllLength(parts: seq<string>)
    ensures |TrimAll(parts)| == |parts| && AllTrimmed(TrimAll(parts))
    ensures TotalLength(TrimAll(parts)) <= TotalLength(parts)
    ensures TotalLength(TrimAll(parts)) == TotalLength(parts) || AllTrimmed(parts) ==> TrimAll(parts) == parts
  {
    if parts != [] {
      TrimFacts(parts[0]);
      TrimAllLength(parts[1..]);
      assert parts == [parts[0]] + parts[1..];
      assert AllTrimmed(parts) ==> AllTrimmed(parts[1..]);
    }
  }

  lemma AllTrimmedAppend(parts: seq<string>, last: string)
    ensures AllTrimmed(parts + [last]) <==> AllTrimmed(parts) && IsTrimmed(last)
  {
    var all := parts + [last];
    assert forall i | 0 <= i < |parts| :: all[i] == parts[i];
    assert all[|parts|] == last;
  }

  /** The trimmed pieces are all trimmed and in total no longer than the pieces;
      they are the pieces themselves exactly when nothing was trimmed or dropped. */
  lemma ArgumentsLength(init: seq<string>, last: string)
    ensures var r := Arguments(init + [last]);
            && AllTrimmed(r) && |r| <= |init| + 1 && TotalLength(r) <= TotalLength(init + [last])
            && (|r| == |init| + 1 && TotalLength(r) == TotalLength(init + [last]) ==> r == init + [last])
            && (AllTrimmed(init + [last]) && last != "" ==> r == init + [last])
            && (|r| == |init| + 1 ==> r[|init|] != "")
  {
    var pieces := init + [last];
    assert pieces[..|init|] == init;
    TrimFacts(last);
    TrimAllLength(init);
    TotalLengthAppend(init, last);
    AllTrimmedAppend(init, last);
    if Trim(last) != "" {
      TotalLengthAppend(TrimAll(init), Trim(last));
      AllTrimmedAppend(TrimAll(init), Trim(last));
    } else {
      assert Arguments(pieces) == TrimAll(init);
    }
  }

  lemma ArgumentsOf(pieces: seq<string>, text: string)
    requires pieces != [] && TotalLength(pieces) + |pieces| - 1 == |text|
    ensures forall args: seq<string> | args != [] && |text| == TotalLength(args) + |args| - 1
            && Arguments(pieces) == args ::
              pieces == args && AllTrimmed(args) && args[|args| - 1] != ""
    ensures AllTrimmed(pieces) && pieces[|pieces| - 1] != "" ==> Arguments(pieces) == pieces
  {
    var init, last := pieces[..|pieces| - 1], pieces[|pieces| - 1];
    assert pieces == init + [last];
    ArgumentsLength(init, last);
  }

  /** The splitter inverts printing: from the arguments joined by commas it reads
      back those arguments exactly when they are trimmed, the last is not empty,
      no argument has a comma at the top, and only the last may leave a quote or
      bracket open. */
  lemma SplitInvertsPrinting(args: seq<string>)
    ensures Arguments(Pieces(TOP, JoinArguments(args))) == args <==> ArePrintable(args)
  {
    if args == [] {
      assert Pieces(TOP, "") == [""];
      TrimFacts("");
    } else {
      PiecesOfJoin(args);
      JoinLength(args);
      PiecesLength(TOP, JoinArguments(args));
      ArgumentsOf(Pieces(TOP, JoinArguments(args)), JoinArguments(args));
    }
  }

  // ---- a whole call --------------------------------------------------------------------

  /** No `)` outside quotes meets a counter that is already zero. */
  predicate NeverClamps(p: Position, s: string)
    decreases s
  {
    s == "" ||
    (!(p.quoting.quote.None? && s[0] == ')' && p.paren == 0) &&
     NeverClamps(if IsTop(p) && s[0] == ',' then p else Advance(p, s[0]), s[1..]))
  }

  /** On text cut out by the matching parenthesis the splitter's clamp on `)`
      never acts, and the text ends outside quotes with every parenthesis closed. */
  lemma {:induction false} BalancedNeverClamps(p: Position, s: string)
    requires IsBalanced(p.quoting, p.paren, s)
    ensures NeverClamps(p, s)
    ensures End(p, s).paren == 0 && End(p, s).quoting.quote.None?
    decreases s
  {
    if s != "" {
      BalancedNeverClamps(if IsTop(p) && s[0] == ',' then p else Advance(p, s[0]), s[1..]);
    }
  }

  lemma CutTextNeverClamps(source: string, open: nat, close: int)
    requires IsPartner(source, open, close)
    ensures NeverClamps(TOP, source[open + 1..close])
    ensures End(TOP, source[open + 1..close]).paren == 0 && End(TOP, source[open + 1..close]).quoting.quote.None?
  {
    BalancedNeverClamps(TOP, source[open + 1..close]);
  }

  lemma {:induction false} BalancedConcat(q: Quoting, depth: nat, a: string, b: string)
    requires IsBalanced(q, depth, a) && IsBalanced(UNQUOTED, 0, b) && (q.quote.None? ==> !q.escaped)
    ensures IsBalanced(q, depth, a + b)
    decreases a
  {
    if a == "" {
      assert a + b == b;
    } else {
      assert (a + b)[1..] == a[1..] + b;
      if q.quote.Some? || IsQuote(a[0]) { BalancedConcat(Quoted(q, a[0]), depth, a[1..], b); }
      else if a[0] == '(' { BalancedConcat(q, depth + 1, a[1..], b); }
      else if a[0] == ')' { BalancedConcat(q, depth - 1, a[1..], b); }
      else { BalancedConcat(q, depth, a[1..], b); }
    }
  }

  lemma {:induction false} JoinIsBalanced(args: seq<string>)
    requires forall i | 0 <= i < |args| :: IsBalanced(UNQUOTED, 0, args[i])
    ensures IsBalanced(UNQUOTED, 0, JoinArguments(args))
    decreases |args|
  {
    if |args| > 1 {
      var rest := args[1..];
      JoinIsBalanced(rest);
      var after := "," + JoinArguments(rest);
      assert after[0] == ',' && after[1..] == JoinArguments(rest);
      BalancedConcat(UNQUOTED, 0, args[0], after);
      assert args[0] + "," + JoinArguments(rest) == args[0] + after;
    }
  }

  /** The arguments of a printed call are found: the parenthesis that opens it is
      matched by the one that closes it, and the text between splits into them. */
  lemma CallArgumentsAreFound(before: string, args: seq<string>, after: string)
    requires ArePrintable(args) && forall i | 0 <= i < |args| :: IsBalanced(UNQUOTED, 0, args[i])
    ensures var source := before + "(" + JoinArguments(args) + ")" + after;
            var close := |before| + 1 + |JoinArguments(args)|;
            && IsPartner(source, |before|, close)
            && (forall other :: IsPartner(source, |before|, other) ==> other == close)
            && Arguments(Pieces(TOP, source[|before| + 1..close])) == args
  {
    var inner := JoinArguments(args);
    var source := before + "(" + inner + ")" + after;
    var close := |before| + 1 + |inner|;
    assert source[|before| + 1..close] == inner;
    JoinIsBalanced(args);
    SplitInvertsPrinting(args);
    PartnerIsUnique(source, |before|, close);
  }

  lemma PartnerIsUnique(source: string, open: nat, close: int)
    requires IsPartner(source, open, close)
    ensures forall other :: IsPartner(source, open, other) ==> other == close
  {
    var tail := source[open + 1..];
    forall other | IsPartner(source, open, other) ensures other == close {
      ClosingExact(UNQUOTED, 1, tail, other - open - 1);
      ClosingExact(UNQUOTED, 1, tail, close - open - 1);
      assert tail[..other - open - 1] == source[open + 1..other];
      assert tail[..close - open - 1] == source[open + 1..close];
    }
  }
}
