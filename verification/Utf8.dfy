/** `Buffer.toString("utf8")`: UTF-8 as section 3 of RFC 3629 defines it, where the
    longest start of a sequence that cannot be continued becomes one U+FFFD. */
module Utf8 {
  import opened Octets

  const REPLACEMENT := '\U{FFFD}'

  /** How many more bytes the sequence that `lead` begins needs, or -1 if it begins none. */
  function Needed(lead: byte): int {
    if lead < 0x80 then 0
    else if 0xC2 <= lead <= 0xDF then 1
    else if 0xE0 <= lead <= 0xEF then 2
    else if 0xF0 <= lead <= 0xF4 then 3
    else -1
  }

  /** `next` can be byte number `k` of the sequence. Overlong forms, surrogates and
      numbers beyond U+10FFFF are shut out at the first byte after the lead. */
  predicate Accepts(lead: byte, k: nat, next: byte) {
    && 0x80 <= next <= 0xBF
    && (k == 1 ==>
          && (lead == 0xE0 ==> next >= 0xA0) && (lead == 0xED ==> next <= 0x9F)
          && (lead == 0xF0 ==> next >= 0x90) && (lead == 0xF4 ==> next <= 0x8F))
  }

  /** Where the sequence at the front of `s` stops, of which `k` bytes are read. */
  function SpanFrom(s: Bytes, k: nat): (n: nat)
    requires 1 <= k <= |s|
    ensures k <= n <= |s|
    decreases |s| - k
  {
    if k <= Needed(s[0]) && k < |s| && Accepts(s[0], k, s[k]) then SpanFrom(s, k + 1) else k
  }

  function Span(s: Bytes): (n: nat)
    requires s != []
    ensures 1 <= n <= |s|
  {
    SpanFrom(s, 1)
  }

  predicate IsComplete(s: Bytes)
    requires s != []
  {
    Span(s) == Needed(s[0]) + 1
  }

  lemma {:induction false} SpanAccepts(s: Bytes, k: nat, i: nat)
    requires 1 <= k <= i < |s| && i < SpanFrom(s, k)
    ensures i <= Needed(s[0]) && Accepts(s[0], i, s[i])
    decreases |s| - k
  {
    if k < i { SpanAccepts(s, k + 1, i); }
  }

  /** The six bits that a byte after the lead holds. */
  function Low(next: byte): int {
    next - 0x80
  }

  /** The number that a complete sequence stands for. */
  function CodePoint(s: Bytes): int
    requires s != [] && 0 <= Needed(s[0]) < |s|
  {
    var lead: int := s[0];
    match Needed(s[0])
    case 0 => lead
    case 1 => (lead - 0xC0) * 0x40 + Low(s[1])
    case 2 => (lead - 0xE0) * 0x1000 + Low(s[1]) * 0x40 + Low(s[2])
    case _ => (lead - 0xF0) * 0x4_0000 + Low(s[1]) * 0x1000 + Low(s[2]) * 0x40 + Low(s[3])
  }

  lemma CodePointIsScalar(s: Bytes)
    requires s != [] && IsComplete(s)
    ensures 0 <= Needed(s[0]) < |s|
    ensures 0 <= CodePoint(s) < 0xD800 || 0xE000 <= CodePoint(s) < 0x11_0000
    ensures s[0] >= 0x80 ==> CodePoint(s) >= 0x80
  {
    var n := Needed(s[0]);
    if n >= 1 { SpanAccepts(s, 1, 1); }
    if n >= 2 { SpanAccepts(s, 1, 2); }
    if n >= 3 { SpanAccepts(s, 1, 3); }
  }

  /** The first character of the decoded text. */
  function FirstChar(s: Bytes): char
    requires s != []
  {
    if IsComplete(s) then CodePointIsScalar(s); CodePoint(s) as char else REPLACEMENT
  }

  function Decode(s: Bytes): string
    decreases |s|
  {
    if s == [] then "" else [FirstChar(s)] + Decode(s[Span(s)..])
  }

  // ---- encoding ----------------------------------------------------------------------

  function EncodeChar(c: char): Bytes {
    var n := c as int;
    if n < 0x80 then [n]
    else if n < 0x800 then [0xC0 + n / 0x40, 0x80 + n % 0x40]
    else if n < 0x1_0000 then [0xE0 + n / 0x1000, 0x80 + n / 0x40 % 0x40, 0x80 + n % 0x40]
    else [0xF0 + n / 0x4_0000, 0x80 + n / 0x1000 % 0x40, 0x80 + n / 0x40 % 0x40, 0x80 + n % 0x40]
  }

  function EncodeText(text: string): Bytes {
    if text == "" then [] else EncodeChar(text[0]) + EncodeText(text[1..])
  }

  /** The whole encoded character is taken, whatever follows. */
  lemma {:induction false} SpanOfWhole(s: Bytes, n: nat, k: nat)
    requires 1 <= k <= n <= |s| && Needed(s[0]) == n - 1
    requires forall i: nat | k <= i < n :: Accepts(s[0], i, s[i])
    ensures SpanFrom(s, k) == n
    decreases n - k
  {
    if k < n { SpanOfWhole(s, n, k + 1); }
  }

  lemma Digits(n: nat)
    ensures n / 0x40 / 0x40 == n / 0x1000 && n / 0x1000 / 0x40 == n / 0x4_0000
    ensures n == n / 0x40 * 0x40 + n % 0x40
    ensures n / 0x40 == n / 0x1000 * 0x40 + n / 0x40 % 0x40
    ensures n / 0x1000 == n / 0x4_0000 * 0x40 + n / 0x1000 % 0x40
  {
  }

  lemma EncodedCharIsWhole(c: char)
    ensures var s := EncodeChar(c);
            && Needed(s[0]) == |s| - 1
            && forall i: nat | 1 <= i < |s| :: Accepts(s[0], i, s[i])
  {
    Digits(c as int);
  }

  lemma EncodedCharIsRead(c: char)
    ensures var s := EncodeChar(c);
            Needed(s[0]) == |s| - 1 && CodePoint(s) == c as int
  {
    Digits(c as int);
  }

  lemma DecodeEncodedChar(c: char, rest: Bytes)
    ensures Decode(EncodeChar(c) + rest) == [c] + Decode(rest)
  {
    var code := EncodeChar(c);
    var s := code + rest;
    EncodedCharIsWhole(c);
    EncodedCharIsRead(c);
    assert forall i: nat | i < |code| :: s[i] == code[i];
    SpanOfWhole(s, |code|, 1);
    assert s[|code|..] == rest && CodePoint(s) == CodePoint(code);
  }

  /** Decoding gives back every text that was encoded. */
  lemma {:induction false} TextRoundTrip(text: string)
    ensures Decode(EncodeText(text)) == text
  {
    if text != "" {
      TextRoundTrip(text[1..]);
      DecodeEncodedChar(text[0], EncodeText(text[1..]));
    }
  }

  // ---- cutting bytes in two ----------------------------------------------------------

  /** The sequence that `s` ends in and that more bytes could still continue. */
  function OpenSequence(s: Bytes): Bytes
    decreases |s|
  {
    if s == [] then []
    else if Span(s) == |s| <= Needed(s[0]) then s
    else OpenSequence(s[Span(s)..])
  }

  /** The cut between `a` and `b` goes through a sequence. */
  predicate IsTorn(a: Bytes, b: Bytes) {
    OpenSequence(a) != [] && b != [] && Accepts(OpenSequence(a)[0], |OpenSequence(a)|, b[0])
  }

  lemma {:induction false} SpanOfLonger(a: Bytes, b: Bytes, k: nat)
    requires 1 <= k <= |a|
    ensures SpanFrom(a, k) < |a| || SpanFrom(a, k) > Needed(a[0]) || b == [] || !Accepts(a[0], |a|, b[0]) ==>
              SpanFrom(a + b, k) == SpanFrom(a, k)
    ensures !(SpanFrom(a, k) < |a| || SpanFrom(a, k) > Needed(a[0]) || b == [] || !Accepts(a[0], |a|, b[0])) ==>
              SpanFrom(a + b, k) > |a|
    decreases |a| - k
  {
    assert (a + b)[0] == a[0];
    if k < |a| {
      assert (a + b)[k] == a[k];
      if k <= Needed(a[0]) && Accepts(a[0], k, a[k]) { SpanOfLonger(a, b, k + 1); }
    } else if b != [] {
      assert (a + b)[k] == b[0];
    } else {
      assert a + b == a;
    }
  }

  /** A character count that is blind to line ends. */
  function Weight(text: string): nat {
    if text == "" then 0 else (if text[0] == '\r' || text[0] == '\n' then 0 else 1) + Weight(text[1..])
  }

  lemma {:induction false} WeightConcat(a: string, b: string)
    ensures Weight(a + b) == Weight(a) + Weight(b)
  {
    if a == "" {
      assert a + b == b;
    } else {
      assert (a + b)[1..] == a[1..] + b;
      WeightConcat(a[1..], b);
    }
  }

  /** Bytes that only continue a sequence become one replacement each. */
  lemma {:induction false} StrayBytes(s: Bytes, n: nat)
    requires n <= |s| && forall i | 0 <= i < n :: 0x80 <= s[i] <= 0xBF
    ensures Weight(Decode(s)) == n + Weight(Decode(s[n..]))
    decreases n
  {
    if n > 0 {
      assert Span(s) == 1;
      StrayBytes(s[1..], n - 1);
      assert s[1..][n - 1..] == s[n..];
      WeightConcat([FirstChar(s)], Decode(s[1..]));
    } else {
      assert s[0..] == s;
    }
  }

  lemma FirstWeighs(s: Bytes)
    requires s != [] && s[0] >= 0x80
    ensures Weight(Decode(s)) == 1 + Weight(Decode(s[Span(s)..]))
  {
    if IsComplete(s) { CodePointIsScalar(s); }
    WeightConcat([FirstChar(s)], Decode(s[Span(s)..]));
  }

  /** A first character that `b` cannot change. */
  lemma DecodeClosed(a: Bytes, b: Bytes)
    requires a != [] && !(Span(a) == |a| <= Needed(a[0]))
    ensures Decode(a + b) == [FirstChar(a)] + Decode(a[Span(a)..] + b)
  {
    var n := Span(a);
    SpanOfLonger(a, b, 1);
    assert (a + b)[n..] == a[n..] + b;
    assert (a + b)[0] == a[0];
    if IsComplete(a) {
      CodePointIsScalar(a);
      CodePointIsScalar(a + b);
      assert forall i | 0 <= i <= Needed(a[0]) :: (a + b)[i] == a[i];
    }
  }

  /** A sequence that stays unfinished is one replacement, whatever follows. */
  lemma DecodeOpen(a: Bytes, b: Bytes)
    requires a != [] && Span(a) == |a| <= Needed(a[0]) && Span(a + b) == |a|
    ensures Decode(a + b) == Decode(a) + Decode(b)
  {
    assert (a + b)[0] == a[0];
    assert a[|a|..] == [] && (a + b)[|a|..] == b;
  }

  lemma TornBytes(a: Bytes, b: Bytes)
    requires a != [] && Span(a + b) > |a|
    ensures forall i | 0 <= i < Span(a + b) - |a| :: 0x80 <= b[i] <= 0xBF
  {
    forall i | 0 <= i < Span(a + b) - |a| ensures 0x80 <= b[i] <= 0xBF {
      SpanAccepts(a + b, 1, |a| + i);
      assert (a + b)[|a| + i] == b[i];
    }
  }

  /** A sequence that the second part continues is one character of the whole, and one
      replacement for the first part and for each byte taken from the second. */
  lemma DecodeTorn(a: Bytes, b: Bytes)
    requires a != [] && Span(a) == |a| <= Needed(a[0]) && Span(a + b) > |a|
    ensures Weight(Decode(a + b)) < Weight(Decode(a) + Decode(b))
  {
    var m := Span(a + b);
    var k := m - |a|;
    TornBytes(a, b);
    StrayBytes(b, k);
    assert (a + b)[0] == a[0];
    FirstWeighs(a + b);
    assert (a + b)[m..] == b[k..];
    assert a[|a|..] == [];
    WeightConcat(Decode(a), Decode(b));
  }

  lemma OneMoreChar(c: char, whole: string, x: string, y: string)
    ensures whole == x + y ==> [c] + whole == [c] + x + y
    ensures Weight(whole) < Weight(x + y) ==> Weight([c] + whole) < Weight([c] + x + y)
  {
    assert [c] + x + y == [c] + (x + y);
    WeightConcat([c], whole);
    WeightConcat([c], x + y);
  }

  /** Decoding two parts on their own is decoding the whole exactly when the cut
      goes through no sequence; otherwise there are more characters, none of them
      a line end. */
  lemma {:induction false} DecodeCut(a: Bytes, b: Bytes)
    ensures !IsTorn(a, b) ==> Decode(a + b) == Decode(a) + Decode(b)
    ensures IsTorn(a, b) ==> Weight(Decode(a + b)) < Weight(Decode(a) + Decode(b))
    decreases |a|
  {
    if a == [] {
      assert a + b == b;
    } else if Span(a) == |a| <= Needed(a[0]) {
      SpanOfLonger(a, b, 1);
      if IsTorn(a, b) {
        DecodeTorn(a, b);
      } else {
        if b == [] { assert a + b == a; }
        DecodeOpen(a, b);
      }
    } else {
      var rest := a[Span(a)..];
      DecodeClosed(a, b);
      DecodeCut(rest, b);
      OneMoreChar(FirstChar(a), Decode(rest + b), Decode(rest), Decode(b));
      assert IsTorn(a, b) == IsTorn(rest, b);
    }
  }

  // ---- many cuts ---------------------------------------------------------------------

  function Joined(chunks: seq<Bytes>): Bytes {
    if chunks == [] then [] else chunks[0] + Joined(chunks[1..])
  }

  function DecodedEach(chunks: seq<Bytes>): seq<string> {
    if chunks == [] then [] else [Decode(chunks[0])] + DecodedEach(chunks[1..])
  }

  function Concat(texts: seq<string>): string {
    if texts == [] then "" else texts[0] + Concat(texts[1..])
  }

  /** No chunk ends inside a sequence that the bytes after it continue. */
  predicate IsCleanlyCut(chunks: seq<Bytes>) {
    chunks == [] || (!IsTorn(chunks[0], Joined(chunks[1..])) && IsCleanlyCut(chunks[1..]))
  }

  /** Decoding chunk by chunk gives the text of the whole if every cut is clean, and
      more characters if one is not. */
  lemma {:induction false} DecodeChunks(chunks: seq<Bytes>)
    ensures IsCleanlyCut(chunks) ==> Concat(DecodedEach(chunks)) == Decode(Joined(chunks))
    ensures !IsCleanlyCut(chunks) ==> Weight(Decode(Joined(chunks))) < Weight(Concat(DecodedEach(chunks)))
  {
    if chunks != [] {
      var rest := Joined(chunks[1..]);
      DecodeChunks(chunks[1..]);
      DecodeCut(chunks[0], rest);
      assert DecodedEach(chunks)[1..] == DecodedEach(chunks[1..]);
      WeightConcat(Decode(chunks[0]), Decode(rest));
      WeightConcat(Decode(chunks[0]), Concat(DecodedEach(chunks[1..])));
    }
  }
}
