/**
 * Splitting a child's output into lines while it arrives (scripts/bench-gateway-restart.ts): each
 * chunk of bytes is decoded on its own, joined to the unfinished line before it and cut at `\r?\n`.
 */
module LogLines {
  import opened Octets
  import opened Utf8

  /** How much of the front of `s` the separator `\r?\n` takes; 0 when it does not match there. */
  function SeparatorLength(s: string): (n: nat)
    ensures n <= |s|
  {
    if "\n" <= s then 1 else if "\r\n" <= s then 2 else 0
  }

  /** `s.split(/\r?\n/)`. */
  function Split(s: string): (parts: seq<string>)
    ensures parts != []
    decreases |s|
  {
    if s == "" then [""]
    else if SeparatorLength(s) > 0 then [""] + Split(s[SeparatorLength(s)..])
    else
      var rest := Split(s[1..]);
      [[s[0]] + rest[0]] + rest[1..]
  }

  function Last(parts: seq<string>): string
    requires parts != []
  {
    parts[|parts| - 1]
  }

  function Front(parts: seq<string>): seq<string>
    requires parts != []
  {
    parts[..|parts| - 1]
  }

  // ---- what a split is, without scanning: the newline-free lines that give the text back ----

  /** The text with every line end written as a bare newline. */
  function Normalized(s: string): string {
    if s == "" then ""
    else if "\r\n" <= s then "\n" + Normalized(s[2..])
    else [s[0]] + Normalized(s[1..])
  }

  function Join(parts: seq<string>): string
    requires parts != []
  {
    if |parts| == 1 then parts[0] else parts[0] + "\n" + Join(parts[1..])
  }

  ghost predicate AreLines(parts: seq<string>) {
    parts != [] && forall i | 0 <= i < |parts| :: '\n' !in parts[i]
  }

  lemma {:induction false} SplitJoins(s: string)
    ensures AreLines(Split(s)) && Join(Split(s)) == Normalized(s)
    decreases |s|
  {
    if s == "" {
    } else if SeparatorLength(s) > 0 {
      SplitJoins(s[SeparatorLength(s)..]);
      assert Split(s)[1..] == Split(s[SeparatorLength(s)..]);
    } else {
      SplitJoins(s[1..]);
      JoinPrepend(s[0], Split(s[1..]));
      assert s[0] == '\n' ==> "\n" <= s;
    }
  }

  lemma JoinPrepend(c: char, parts: seq<string>)
    requires parts != []
    ensures Join(Prepend(c, parts)) == [c] + Join(parts)
    ensures c != '\n' && AreLines(parts) ==> AreLines(Prepend(c, parts))
  {
    var more := Prepend(c, parts);
    assert more[1..] == parts[1..];
    if |parts| > 1 {
      assert [c] + (parts[0] + "\n" + Join(parts[1..])) == ([c] + parts[0]) + "\n" + Join(parts[1..]);
    }
  }

  lemma FirstLineIsUnique(a: string, b: string, x: string, y: string)
    requires '\n' !in a && '\n' !in b && a + x == b + y
    requires (x == "" || x[0] == '\n') && (y == "" || y[0] == '\n')
    ensures a == b && x == y
  {
    var whole := a + x;
    assert forall i | 0 <= i < |a| :: whole[i] == a[i];
    assert forall i | 0 <= i < |b| :: whole[i] == b[i];
    assert x != "" ==> whole[|a|] == x[0];
    assert y != "" ==> whole[|b|] == y[0];
    assert |a| == |b|;
    assert a == whole[..|a|] && b == whole[..|b|];
    assert x == whole[|a|..] && y == whole[|b|..];
  }

  /** What follows the first line, its line end included. */
  function AfterFirst(parts: seq<string>): string
    requires parts != []
  {
    if |parts| == 1 then "" else "\n" + Join(parts[1..])
  }

  lemma JoinFirst(parts: seq<string>)
    requires parts != []
    ensures Join(parts) == parts[0] + AfterFirst(parts)
    ensures |parts| > 1 ==> AfterFirst(parts)[1..] == Join(parts[1..])
  {
  }

  lemma {:induction false} LinesAreUnique(a: seq<string>, b: seq<string>)
    requires AreLines(a) && AreLines(b) && Join(a) == Join(b)
    ensures a == b
  {
    JoinFirst(a);
    JoinFirst(b);
    FirstLineIsUnique(a[0], b[0], AfterFirst(a), AfterFirst(b));
    if |a| > 1 {
      assert AfterFirst(b) != "";
      LinesAreUnique(a[1..], b[1..]);
    }
    assert a == [a[0]] + a[1..] && b == [b[0]] + b[1..];
  }

  /** The split is the only list of newline-free lines that joins back to the text. */
  lemma SplitExact(s: string, parts: seq<string>)
    requires parts != []
    ensures parts == Split(s) <==> AreLines(parts) && Join(parts) == Normalized(s)
  {
    SplitJoins(s);
    if AreLines(parts) && Join(parts) == Normalized(s) {
      LinesAreUnique(parts, Split(s));
    }
  }

  // ---- chunks -------------------------------------------------------------------------

  lemma {:induction false} SplitAcross(a: string, b: string)
    ensures Split(a + b) == Front(Split(a)) + Split(Last(Split(a)) + b)
    decreases |a|
  {
    if a == "" {
      assert a + b == b && Last(Split(a)) + b == b;
    } else if SeparatorLength(a) > 0 {
      var n := SeparatorLength(a);
      SplitAcross(a[n..], b);
      SplitAtSeparator(a, b);
      AfterEmptyLine(Split(a[n..]), Split(Last(Split(a)) + b));
    } else if |Split(a)| == 1 {
      SplitOfOneLine(a);
    } else {
      SplitAcross(a[1..], b);
      SplitAtCharacter(a, b);
      WithinFirstLine(a[0], Split(a[1..]), Split(Last(Split(a)) + b));
    }
  }

  function Prepend(c: char, parts: seq<string>): seq<string>
    requires parts != []
  {
    [[c] + parts[0]] + parts[1..]
  }

  lemma AfterEmptyLine(parts: seq<string>, more: seq<string>)
    requires parts != []
    ensures Front([""] + parts) + more == [""] + (Front(parts) + more)
    ensures Last([""] + parts) == Last(parts)
  {
  }

  lemma WithinFirstLine(c: char, parts: seq<string>, more: seq<string>)
    requires |parts| > 1
    ensures Front(Prepend(c, parts)) + more == Prepend(c, Front(parts) + more)
    ensures Last(Prepend(c, parts)) == Last(parts)
  {
  }

  lemma SplitAtSeparator(a: string, b: string)
    requires SeparatorLength(a) > 0
    ensures Split(a + b) == [""] + Split(a[SeparatorLength(a)..] + b)
  {
    SeparatorExtends(a, b);
    assert (a + b)[SeparatorLength(a)..] == a[SeparatorLength(a)..] + b;
  }

  lemma SplitAtCharacter(a: string, b: string)
    requires a != "" && SeparatorLength(a) == 0 && |Split(a)| > 1
    ensures |Split(a[1..])| > 1
    ensures Split(a + b) == Prepend(a[0], Split(a[1..] + b))
  {
    NoSeparatorExtends(a, b);
    assert (a + b)[1..] == a[1..] + b;
  }

  lemma SeparatorExtends(a: string, b: string)
    requires SeparatorLength(a) > 0
    ensures SeparatorLength(a + b) == SeparatorLength(a)
  {
    if "\n" <= a {
      assert (a + b)[..1] == a[..1] == "\n";
    } else {
      assert (a + b)[0] == '\r';
      assert (a + b)[..2] == a[..2] == "\r\n";
    }
  }

  lemma NoSeparatorExtends(a: string, b: string)
    requires a != "" && SeparatorLength(a) == 0 && |Split(a)| > 1
    ensures SeparatorLength(a + b) == 0
  {
    assert |a| > 1 by { assert Split("") == [""]; }
    assert [a[0]] == a[..1] && [a[0], a[1]] == a[..2];
    assert (a + b)[0] == a[0] && (a + b)[1] == a[1];
  }

  lemma {:induction false} SplitOfOneLine(a: string)
    requires |Split(a)| == 1
    ensures Split(a) == [a]
  {
    if a != "" && SeparatorLength(a) == 0 {
      SplitOfOneLine(a[1..]);
      assert a == [a[0]] + a[1..];
    }
  }

  datatype Parsed = Parsed(carry: string, lines: seq<string>)

  function CollectOutputLines(carry: string, chunk: string): Parsed {
    var parts := Split(carry + chunk);
    Parsed(Last(parts), Front(parts))
  }

  ghost predicate Agrees(lines: seq<string>, carry: string, text: string) {
    lines + [carry] == Split(text)
  }

  /** One chunk takes the split of what came before to the split of what came so far. */
  lemma ChunkContinues(text: string, lines: seq<string>, carry: string, chunk: string)
    requires Agrees(lines, carry, text)
    ensures var parsed := CollectOutputLines(carry, chunk);
            Agrees(lines + parsed.lines, parsed.carry, text + chunk)
  {
    SplitAcross(text, chunk);
    LastOfAppend(lines, carry);
    assert Split(text + chunk) == lines + Split(carry + chunk);
    Reassemble(lines, Split(carry + chunk));
  }

  lemma LastOfAppend(lines: seq<string>, carry: string)
    ensures Front(lines + [carry]) == lines && Last(lines + [carry]) == carry
  {
  }

  lemma Reassemble(lines: seq<string>, parts: seq<string>)
    requires parts != []
    ensures lines + parts == lines + Front(parts) + [Last(parts)]
  {
  }

  datatype Stream = Stdout | Stderr
  datatype Chunk = Chunk(stream: Stream, bytes: Bytes)
  datatype Line = Line(stream: Stream, text: string)

  /** Everything one stream wrote, as the chunks were decoded. */
  function TextOf(chunks: seq<Chunk>, stream: Stream): string {
    if chunks == [] then "" else
      var n := |chunks| - 1;
      TextOf(chunks[..n], stream) + (if chunks[n].stream == stream then Decode(chunks[n].bytes) else "")
  }

  /** The lines handed on so far that came from one stream. */
  function LinesOf(lines: seq<Line>, stream: Stream): seq<string> {
    if lines == [] then [] else
      var n := |lines| - 1;
      LinesOf(lines[..n], stream) + (if lines[n].stream == stream then [lines[n].text] else [])
  }

  lemma LinesOfAppend(lines: seq<Line>, last: Line, stream: Stream)
    ensures LinesOf(lines + [last], stream)
            == if last.stream == stream then LinesOf(lines, stream) + [last.text] else LinesOf(lines, stream)
  {
    assert (lines + [last])[..|lines|] == lines;
    assert LinesOf(lines, stream) + [] == LinesOf(lines, stream);
  }

  lemma TextOfAppend(chunks: seq<Chunk>, last: Chunk, stream: Stream)
    ensures TextOf(chunks + [last], stream)
            == TextOf(chunks, stream) + (if last.stream == stream then Decode(last.bytes) else "")
  {
    assert (chunks + [last])[..|chunks|] == chunks;
  }

  ghost predicate AllAgree(lines: seq<Line>, buffers: map<Stream, string>, received: seq<Chunk>) {
    forall stream: Stream ::
      stream in buffers && Agrees(LinesOf(lines, stream), buffers[stream], TextOf(received, stream))
  }

  lemma ChunkKeepsAll(lines: seq<Line>, buffers: map<Stream, string>, received: seq<Chunk>, chunk: Chunk)
    requires AllAgree(lines, buffers, received)
    ensures var parsed := CollectOutputLines(buffers[chunk.stream], Decode(chunk.bytes));
            AllAgree(lines + From(chunk.stream, parsed.lines), buffers[chunk.stream := parsed.carry],
                     received + [chunk])
  {
    var parsed := CollectOutputLines(buffers[chunk.stream], Decode(chunk.bytes));
    forall stream: Stream
      ensures Agrees(LinesOf(lines + From(chunk.stream, parsed.lines), stream),
                     buffers[chunk.stream := parsed.carry][stream], TextOf(received + [chunk], stream))
    {
      ChunkAgrees(lines, buffers[stream], received, chunk, stream);
    }
  }

  /** The unfinished line of each stream, and the lines handed on in the order they were finished. */
  class OutputLines {
    var buffers: map<Stream, string>
    var lines: seq<Line>
    ghost var received: seq<Chunk>

    /** Whatever the chunking, the lines of a stream and its carry are one split of its whole text. */
    ghost predicate Valid()
      reads this
    {
      AllAgree(lines, buffers, received)
    }

    constructor ()
      ensures Valid() && received == [] && lines == []
    {
      buffers, lines, received := map[Stdout := "", Stderr := ""], [], [];
      new;
      assert forall stream: Stream :: stream in buffers by {
        forall stream: Stream ensures stream in buffers {
          match stream { case Stdout => case Stderr => }
        }
      }
    }

    method OnLine(stream: Stream, text: string)
      modifies this`lines
      ensures lines == old(lines) + [Line(stream, text)]
    {
      lines := lines + [Line(stream, text)];
    }

    method OnLines(stream: Stream, texts: seq<string>)
      modifies this`lines
      ensures lines == old(lines) + From(stream, texts)
    {
      for i := 0 to |texts|
        invariant lines == old(lines) + From(stream, texts[..i])
      {
        FromAppend(stream, texts, i);
        OnLine(stream, texts[i]);
      }
      assert texts[..|texts|] == texts;
    }

    method OnChunk(chunk: Chunk)
      requires Valid()
      modifies this
      ensures Valid() && received == old(received) + [chunk]
      ensures old(lines) <= lines
      ensures forall i | |old(lines)| <= i < |lines| :: lines[i].stream == chunk.stream
    {
      var parsed := CollectOutputLines(buffers[chunk.stream], Decode(chunk.bytes));
      ChunkKeepsAll(lines, buffers, received, chunk);
      buffers := buffers[chunk.stream := parsed.carry];
      OnLines(chunk.stream, parsed.lines);
      received := received + [chunk];
    }

    method FlushStream(stream: Stream)
      requires stream in buffers
      modifies this`lines, this`buffers
      ensures buffers == old(buffers)[stream := ""]
      ensures lines == Completed(old(lines), stream, old(buffers[stream]))
    {
      var line := buffers[stream];
      if line == "" {
        assert buffers[stream := ""] == buffers;
        return;
      }
      buffers := buffers[stream := ""];
      OnLine(stream, line);
    }

    /** A partial flush completes the lines of both streams; without it the buffers wait for more. */
    method Flush(flushPartial: bool)
      requires Valid()
      modifies this`lines, this`buffers
      ensures !flushPartial ==> lines == old(lines) && buffers == old(buffers)
      ensures flushPartial ==> forall stream: Stream ::
                stream in buffers && buffers[stream] == ""
                    && LinesOf(lines, stream) == AllLines(TextOf(received, stream))
    {
      if !flushPartial { return; }
      BothCompleted(lines, buffers[Stdout], buffers[Stderr], TextOf(received, Stdout), TextOf(received, Stderr));
      FlushStream(Stdout);
      FlushStream(Stderr);
      forall stream: Stream
        ensures stream in buffers && buffers[stream] == ""
                && LinesOf(lines, stream) == AllLines(TextOf(received, stream))
      {
        match stream { case Stdout => case Stderr => }
      }
    }
  }

  /** The lines with the unfinished one of a stream handed on, unless it is empty. */
  function Completed(lines: seq<Line>, stream: Stream, carry: string): seq<Line> {
    if carry == "" then lines else lines + [Line(stream, carry)]
  }

  /** All lines of `text`, without the empty rest after a final line end. */
  function AllLines(text: string): seq<string> {
    var parts := Split(text);
    if Last(parts) == "" then Front(parts) else parts
  }

  /** Each line without a newline in it, they give the text back, but for a final line end. */
  lemma AllLinesExact(text: string)
    ensures forall i | 0 <= i < |AllLines(text)| :: '\n' !in AllLines(text)[i]
    ensures var n, lines := Normalized(text), AllLines(text);
            if n == "" then lines == []
            else lines != [] && n == if n[|n| - 1] == '\n' then Join(lines) + "\n" else Join(lines)
  {
    var parts := Split(text);
    SplitJoins(text);
    assert parts == Front(parts) + [Last(parts)];
    if |parts| > 1 {
      JoinAppend(Front(parts), Last(parts));
      EndsInLast(Join(Front(parts)), Last(parts));
    } else {
      EndsInLast("", Last(parts));
      assert Join(parts) == Last(parts);
    }
  }

  lemma EndsInLast(front: string, last: string)
    requires '\n' !in last
    ensures last == "" ==> front + "\n" + last == front + "\n"
    ensures last != "" ==> last[|last| - 1] != '\n'
    ensures var n := front + "\n" + last; n[|n| - 1] == if last == "" then '\n' else last[|last| - 1]
  {
    assert last != "" ==> last[|last| - 1] in last;
  }

  lemma {:induction false} JoinAppend(parts: seq<string>, last: string)
    requires parts != []
    ensures Join(parts + [last]) == Join(parts) + "\n" + last
  {
    var more := parts + [last];
    if |parts| == 1 {
      assert more[1..] == [last];
    } else {
      assert more[1..] == parts[1..] + [last];
      JoinAppend(parts[1..], last);
    }
  }

  /** A stream whose carry is handed on has all the lines of its text. */
  lemma CompletedLines(lines: seq<Line>, stream: Stream, carry: string, text: string)
    requires Agrees(LinesOf(lines, stream), carry, text)
    ensures LinesOf(Completed(lines, stream, carry), stream) == AllLines(text)
  {
    LastOfAppend(LinesOf(lines, stream), carry);
    LinesOfAppend(lines, Line(stream, carry), stream);
  }

  lemma CompletedKeepsOther(lines: seq<Line>, stream: Stream, carry: string, other: Stream)
    requires other != stream
    ensures LinesOf(Completed(lines, stream, carry), other) == LinesOf(lines, other)
  {
    LinesOfAppend(lines, Line(stream, carry), other);
  }

  lemma BothCompleted(lines: seq<Line>, out: string, err: string, outText: string, errText: string)
    requires Agrees(LinesOf(lines, Stdout), out, outText) && Agrees(LinesOf(lines, Stderr), err, errText)
    ensures var flushed := Completed(Completed(lines, Stdout, out), Stderr, err);
            LinesOf(flushed, Stdout) == AllLines(outText) && LinesOf(flushed, Stderr) == AllLines(errText)
  {
    var first := Completed(lines, Stdout, out);
    CompletedLines(lines, Stdout, out, outText);
    CompletedKeepsOther(lines, Stdout, out, Stderr);
    CompletedLines(first, Stderr, err, errText);
    CompletedKeepsOther(first, Stderr, err, Stdout);
  }

  lemma ChunkAgrees(lines: seq<Line>, carry: string, received: seq<Chunk>, chunk: Chunk, stream: Stream)
    requires Agrees(LinesOf(lines, stream), carry, TextOf(received, stream))
    ensures stream != chunk.stream ==> forall texts ::
              Agrees(LinesOf(lines + From(chunk.stream, texts), stream), carry, TextOf(received + [chunk], stream))
    ensures stream == chunk.stream ==>
              var parsed := CollectOutputLines(carry, Decode(chunk.bytes));
              Agrees(LinesOf(lines + From(stream, parsed.lines), stream), parsed.carry,
                  TextOf(received + [chunk], stream))
  {
    TextOfAppend(received, chunk, stream);
    if stream == chunk.stream {
      var text := Decode(chunk.bytes);
      LinesOfFrom(lines, stream, CollectOutputLines(carry, text).lines, stream);
      ChunkContinues(TextOf(received, stream), LinesOf(lines, stream), carry, text);
    } else {
      forall texts
        ensures Agrees(LinesOf(lines + From(chunk.stream, texts), stream), carry, TextOf(received + [chunk], stream))
      {
        LinesOfFrom(lines, chunk.stream, texts, stream);
        assert LinesOf(lines, stream) + [] == LinesOf(lines, stream);
        assert TextOf(received, stream) + "" == TextOf(received, stream);
      }
    }
  }

  /** The lines of one chunk, as they are handed on. */
  function From(stream: Stream, texts: seq<string>): seq<Line> {
    seq(|texts|, i requires 0 <= i < |texts| => Line(stream, texts[i]))
  }

  lemma FromAppend(stream: Stream, texts: seq<string>, i: nat)
    requires i < |texts|
    ensures From(stream, texts[..i + 1]) == From(stream, texts[..i]) + [Line(stream, texts[i])]
  {
  }

  lemma {:induction false} LinesOfFrom(lines: seq<Line>, from: Stream, texts: seq<string>, stream: Stream)
    ensures LinesOf(lines + From(from, texts), stream) ==
            LinesOf(lines, stream) + (if stream == from then texts else [])
  {
    if texts == [] {
      assert lines + From(from, texts) == lines;
    } else {
      var n := |texts| - 1;
      LinesOfFrom(lines, from, texts[..n], stream);
      assert texts[..n + 1] == texts;
      FromAppend(from, texts, n);
      LinesOfAppend(lines + From(from, texts[..n]), Line(from, texts[n]), stream);
      assert lines + From(from, texts) == lines + From(from, texts[..n]) + [Line(from, texts[n])];
      assert texts == texts[..n] + [texts[n]];
    }
  }

  // ---- the same over a whole list of chunks -------------------------------------------

  /** The carry and the lines after `chunks`, starting from `carry`. */
  function Collect(carry: string, chunks: seq<string>): Parsed
    decreases |chunks|
  {
    if chunks == [] then Parsed(carry, [])
    else
      var first := CollectOutputLines(carry, chunks[0]);
      var rest := Collect(first.carry, chunks[1..]);
      Parsed(rest.carry, first.lines + rest.lines)
  }

  lemma Associates<T>(a: seq<T>, b: seq<T>, c: seq<T>)
    ensures a + (b + c) == a + b + c
  {
  }

  lemma {:induction false} CollectContinues(text: string, lines: seq<string>, carry: string, chunks: seq<string>)
    requires Agrees(lines, carry, text)
    ensures var all := Collect(carry, chunks);
            Agrees(lines + all.lines, all.carry, text + Concat(chunks))
    decreases |chunks|
  {
    if chunks == [] {
      assert text + Concat(chunks) == text;
      assert lines + [] == lines;
    } else {
      var first := CollectOutputLines(carry, chunks[0]);
      var rest := Collect(first.carry, chunks[1..]);
      ChunkContinues(text, lines, carry, chunks[0]);
      CollectContinues(text + chunks[0], lines + first.lines, first.carry, chunks[1..]);
      Associates(text, chunks[0], Concat(chunks[1..]));
      Associates(lines, first.lines, rest.lines);
    }
  }

  lemma CollectIsSplit(chunks: seq<string>)
    ensures var all := Collect("", chunks); all.lines + [all.carry] == Split(Concat(chunks))
  {
    var all := Collect("", chunks);
    assert Agrees([], "", "");
    CollectContinues("", [], "", chunks);
    assert "" + Concat(chunks) == Concat(chunks);
    assert [] + all.lines == all.lines;
  }

  /** Lines and carry do not depend on where the text was cut, not even between CR and LF. */
  lemma ChunkingIsInvisible(chunks: seq<string>, others: seq<string>)
    requires Concat(chunks) == Concat(others)
    ensures Collect("", chunks) == Collect("", others)
    ensures var all := Collect("", chunks);
            && all.lines + [all.carry] == Split(Concat(chunks))
            && '\n' !in all.carry && forall i | 0 <= i < |all.lines| :: '\n' !in all.lines[i]
  {
    var all, other := Collect("", chunks), Collect("", others);
    CollectIsSplit(chunks);
    CollectIsSplit(others);
    SplitJoins(Concat(chunks));
    LastOfAppend(all.lines, all.carry);
    LastOfAppend(other.lines, other.carry);
    var whole := Split(Concat(chunks));
    assert forall i | 0 <= i < |all.lines| :: all.lines[i] == whole[i];
    assert all.carry == whole[|all.lines|];
  }

  // ---- chunks of bytes: where the cuts may fall ----------------------------------------

  lemma {:induction false} NormalizedWeighs(text: string)
    ensures Weight(Normalized(text)) == Weight(text)
    decreases |text|
  {
    if text == "" {
    } else if "\r\n" <= text {
      assert text[0] == "\r\n"[0] && text[1] == "\r\n"[1];
      assert text[1..][1..] == text[2..];
      NormalizedWeighs(text[2..]);
      WeightConcat("\n", Normalized(text[2..]));
    } else {
      NormalizedWeighs(text[1..]);
      WeightConcat([text[0]], Normalized(text[1..]));
    }
  }

  /** The lines of chunks that were decoded one by one are those of the decoded whole
      exactly when no cut goes through a character. */
  lemma DecodedLinesExactly(chunks: seq<Bytes>)
    ensures var all := Collect("", DecodedEach(chunks));
            all.lines + [all.carry] == Split(Decode(Joined(chunks))) <==> IsCleanlyCut(chunks)
  {
    var text, whole := Concat(DecodedEach(chunks)), Decode(Joined(chunks));
    CollectIsSplit(DecodedEach(chunks));
    DecodeChunks(chunks);
    if Split(text) == Split(whole) {
      SplitJoins(text);
      SplitJoins(whole);
      NormalizedWeighs(text);
      NormalizedWeighs(whole);
    }
  }

  /** The two bytes of one letter in two chunks: two replacements instead of the letter. */
  lemma TornLetter()
    ensures var first: Bytes, second: Bytes := [0xC3], [0xA9];
            && IsTorn(first, second)
            && Concat(DecodedEach([first + second])) == "\U{E9}"
            && Concat(DecodedEach([first, second])) == [REPLACEMENT, REPLACEMENT]
  {
    var first: Bytes, second: Bytes := [0xC3], [0xA9];
    var whole: Bytes := first + second;
    assert whole == [0xC3, 0xA9];
    assert Span(first) == 1 && Span(second) == 1 && Span(whole) == 2;
    assert [whole, second][1..] == [second] && [first, second][1..] == [second];
    assert CodePoint(whole) == 0xE9;
    assert whole[2..] == [] && first[1..] == [] && second[1..] == [];
    assert Decode(first) == [REPLACEMENT] && Decode(second) == [REPLACEMENT] && Decode(whole) == "\U{E9}";
    assert [first] + [second] == [first, second];
    DecodedEachAppend([first], second);
    ConcatAppend(DecodedEach([first]), Decode(second));
  }

  lemma {:induction false} ConcatAppend(texts: seq<string>, last: string)
    ensures Concat(texts + [last]) == Concat(texts) + last
  {
    if texts == [] {
      assert texts + [last] == [last];
      assert Concat([last]) == last + Concat([]);
    } else {
      assert (texts + [last])[1..] == texts[1..] + [last];
      ConcatAppend(texts[1..], last);
    }
  }

  lemma {:induction false} DecodedEachAppend(chunks: seq<Bytes>, last: Bytes)
    ensures DecodedEach(chunks + [last]) == DecodedEach(chunks) + [Decode(last)]
  {
    if chunks == [] {
      assert chunks + [last] == [last];
    } else {
      assert (chunks + [last])[1..] == chunks[1..] + [last];
      DecodedEachAppend(chunks[1..], last);
    }
  }

  /** The chunks of one stream. */
  function BytesOf(chunks: seq<Chunk>, stream: Stream): seq<Bytes> {
    if chunks == [] then [] else
      var n := |chunks| - 1;
      BytesOf(chunks[..n], stream) + (if chunks[n].stream == stream then [chunks[n].bytes] else [])
  }

  lemma {:induction false} TextOfBytes(chunks: seq<Chunk>, stream: Stream)
    ensures TextOf(chunks, stream) == Concat(DecodedEach(BytesOf(chunks, stream)))
  {
    if chunks != [] {
      var n := |chunks| - 1;
      var before := BytesOf(chunks[..n], stream);
      TextOfBytes(chunks[..n], stream);
      if chunks[n].stream == stream {
        DecodedEachAppend(before, chunks[n].bytes);
        ConcatAppend(DecodedEach(before), Decode(chunks[n].bytes));
      } else {
        assert before + [] == before;
      }
    }
  }

  /** What is handed on of a stream, as `Valid()` describes it, is the split of
      all the bytes it wrote exactly when its chunks were cleanly cut. */
  lemma StreamLinesExactly(received: seq<Chunk>, lines: seq<Line>, carry: string, stream: Stream)
    requires Agrees(LinesOf(lines, stream), carry, TextOf(received, stream))
    ensures Agrees(LinesOf(lines, stream), carry, Decode(Joined(BytesOf(received, stream))))
            <==> IsCleanlyCut(BytesOf(received, stream))
  {
    TextOfBytes(received, stream);
    CollectIsSplit(DecodedEach(BytesOf(received, stream)));
    DecodedLinesExactly(BytesOf(received, stream));
  }
}
