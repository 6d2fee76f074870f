/** Text as the scripts use it: JavaScript's whitespace set and `String.prototype.trim`. */
module JsText {

  /** The characters `trim` removes: ECMAScript white space and line terminators. */
  predicate IsSpace(c: char) {
    var n := c as int;
    0x09 <= n <= 0x0D || n == 0x20 || n == 0xA0 || n == 0x1680 || 0x2000 <= n <= 0x200A ||
    n == 0x2028 || n == 0x2029 || n == 0x202F || n == 0x205F || n == 0x3000 || n == 0xFEFF
  }

  /** The 25 characters of the two tables in ECMAScript, sections 12.2 and 12.3. */
  lemma SpaceTable(c: char)
    ensures IsSpace(c) <==>
            c in {'\t', '\n', '\U{000B}', '\U{000C}', '\r', ' ', '\U{00A0}', '\U{FEFF}', '\U{1680}', '\U{2000}',
                  '\U{2001}', '\U{2002}', '\U{2003}', '\U{2004}', '\U{2005}', '\U{2006}', '\U{2007}', '\U{2008}',
                  '\U{2009}', '\U{200A}', '\U{2028}', '\U{2029}', '\U{202F}', '\U{205F}', '\U{3000}'}
  {
  }

  predicate IsBlank(s: string) {
    forall i | 0 <= i < |s| :: IsSpace(s[i])
  }

  predicate IsTrimmed(s: string) {
    s == "" || (!IsSpace(s[0]) && !IsSpace(s[|s| - 1]))
  }

  function TrimStart(s: string): string {
    if s != "" && IsSpace(s[0]) then TrimStart(s[1..]) else s
  }

  function TrimEnd(s: string): string {
    if s != "" && IsSpace(s[|s| - 1]) then TrimEnd(s[..|s| - 1]) else s
  }

  lemma {:induction false} TrimStartFacts(s: string)
    ensures var r := TrimStart(s);
            && |r| <= |s| && r == s[|s| - |r|..] && IsBlank(s[..|s| - |r|])
            && (r == "" || !IsSpace(r[0]))
  {
    if s != "" && IsSpace(s[0]) {
      TrimStartFacts(s[1..]);
      assert s[..|s| - |TrimStart(s)|] == [s[0]] + s[1..][..|s| - 1 - |TrimStart(s)|];
    }
  }

  lemma {:induction false} TrimEndFacts(s: string)
    ensures var r := TrimEnd(s);
            && |r| <= |s| && r == s[..|r|] && IsBlank(s[|r|..])
            && (r == "" || !IsSpace(r[|r| - 1]))
  {
    if s != "" && IsSpace(s[|s| - 1]) {
      TrimEndFacts(s[..|s| - 1]);
      assert s[|TrimEnd(s)|..] == s[..|s| - 1][|TrimEnd(s)|..] + [s[|s| - 1]];
    }
  }

  /** What is left of `s` without its leading and trailing white space. */
  function Trim(s: string): string {
    TrimEnd(TrimStart(s))
  }

  lemma TrimFacts(s: string)
    ensures IsTrimmed(Trim(s))
    ensures |Trim(s)| <= |s|
    ensures |Trim(s)| == |s| <==> Trim(s) == s
    ensures IsTrimmed(s) ==> Trim(s) == s
    ensures Trim(s) == "" <==> IsBlank(s)
  {
    var lo, hi := TrimSlice(s);
    SliceFacts(s, lo, hi);
  }

  /** Only white space is removed, and only at the ends. */
  lemma TrimSlice(s: string) returns (lo: nat, hi: nat)
    ensures lo <= hi <= |s| && Trim(s) == s[lo..hi] && IsBlank(s[..lo]) && IsBlank(s[hi..])
    ensures IsTrimmed(Trim(s))
  {
    var t := TrimStart(s);
    TrimStartFacts(s);
    TrimEndFacts(t);
    lo, hi := |s| - |t|, |s| - |t| + |TrimEnd(t)|;
    assert s[hi..] == t[|TrimEnd(t)|..];
  }

  lemma SliceFacts(s: string, lo: nat, hi: nat)
    requires lo <= hi <= |s| && IsBlank(s[..lo]) && IsBlank(s[hi..])
    requires IsTrimmed(s[lo..hi])
    ensures IsTrimmed(s) && lo < hi ==> s[lo..hi] == s
    ensures IsTrimmed(s) && lo == hi ==> s == ""
    ensures lo == hi ==> IsBlank(s)
    ensures lo < hi ==> !IsBlank(s)
  {
    assert forall i | 0 <= i < lo :: s[i] == s[..lo][i];
    assert forall i | hi <= i < |s| :: s[i] == s[hi..][i - hi];
    assert lo < hi ==> s[lo..hi][0] == s[lo];
  }
}
