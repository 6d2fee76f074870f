/** `toSorted` by string keys, in code-unit order. */
module Sorting {

  predicate LessEq(a: string, b: string) {
    a == "" || (b != "" && (a[0] < b[0] || (a[0] == b[0] && LessEq(a[1..], b[1..]))))
  }

  lemma {:induction false} LessEqTotal(a: string, b: string)
    ensures LessEq(a, b) || LessEq(b, a)
    ensures LessEq(a, b) && LessEq(b, a) ==> a == b
  {
    if a != "" && b != "" && a[0] == b[0] {
      LessEqTotal(a[1..], b[1..]);
      assert a == [a[0]] + a[1..] && b == [b[0]] + b[1..];
    }
  }

  lemma {:induction false} LessEqTransitive(a: string, b: string, c: string)
    requires LessEq(a, b) && LessEq(b, c)
    ensures LessEq(a, c)
  {
    if a != "" && a[0] == b[0] == c[0] {
      LessEqTransitive(a[1..], b[1..], c[1..]);
    }
  }

  function Insert<T>(x: T, s: seq<T>, key: T -> string): seq<T> {
    if s == [] || LessEq(key(x), key(s[0])) then [x] + s
    else [s[0]] + Insert(x, s[1..], key)
  }

  /** The stable sort of `s` by `key`. */
  function Sort<T>(s: seq<T>, key: T -> string): seq<T> {
    if s == [] then [] else Insert(s[0], Sort(s[1..], key), key)
  }

  ghost predicate IsSorted<T>(s: seq<T>, key: T -> string) {
    forall i, j | 0 <= i < j < |s| :: LessEq(key(s[i]), key(s[j]))
  }

  ghost predicate DistinctKeys<T>(s: seq<T>, key: T -> string) {
    forall i, j | 0 <= i < j < |s| :: key(s[i]) != key(s[j])
  }

  ghost predicate SameElements<T>(s: seq<T>, t: seq<T>) {
    (forall x | x in s :: x in t) && (forall x | x in t :: x in s)
  }

  lemma {:induction false} InsertFacts<T>(x: T, s: seq<T>, key: T -> string)
    requires IsSorted(s, key)
    ensures IsSorted(Insert(x, s, key), key)
    ensures multiset(Insert(x, s, key)) == multiset(s) + multiset{x}
  {
    if s == [] {
    } else if LessEq(key(x), key(s[0])) {
      forall j | 0 <= j < |s| ensures LessEq(key(x), key(s[j])) {
        if j > 0 { LessEqTransitive(key(x), key(s[0]), key(s[j])); }
      }
    } else {
      var rest := Insert(x, s[1..], key);
      InsertFacts(x, s[1..], key);
      LessEqTotal(key(x), key(s[0]));
      assert s == [s[0]] + s[1..];
      forall j | 0 <= j < |rest| ensures LessEq(key(s[0]), key(rest[j])) {
        assert rest[j] in multiset(rest);
        assert rest[j] == x || rest[j] in s[1..];
      }
    }
  }

  lemma {:induction false} SortFacts<T>(s: seq<T>, key: T -> string)
    ensures IsSorted(Sort(s, key), key)
    ensures multiset(Sort(s, key)) == multiset(s)
    ensures SameElements(Sort(s, key), s)
    ensures |Sort(s, key)| == |s|
  {
    if s != [] {
      SortFacts(s[1..], key);
      InsertFacts(s[0], Sort(s[1..], key), key);
      assert s == [s[0]] + s[1..];
    }
    PermutedElements(Sort(s, key), s);
  }

  lemma PermutedElements<T>(s: seq<T>, t: seq<T>)
    requires multiset(s) == multiset(t)
    ensures SameElements(s, t) && |s| == |t|
  {
    assert forall x | x in s :: x in multiset(s);
    assert forall x | x in t :: x in multiset(t);
    assert |multiset(s)| == |multiset(t)|;
  }

  lemma AppearsOnce<T>(s: seq<T>, i: nat, key: T -> string)
    requires DistinctKeys(s, key) && i < |s|
    ensures multiset(s)[s[i]] == 1
  {
    assert s == s[..i] + [s[i]] + s[i + 1..];
    assert s[i] !in s[..i] && s[i] !in s[i + 1..];
  }

  lemma AppearsTwice<T>(s: seq<T>, i: nat, j: nat)
    requires i < j < |s| && s[i] == s[j]
    ensures multiset(s)[s[i]] >= 2
  {
    assert s == s[..i] + [s[i]] + s[i + 1..];
    assert s[j] in s[i + 1..];
  }

  lemma DistinctByCount<T>(s: seq<T>, t: seq<T>, key: T -> string)
    requires multiset(s) == multiset(t) && DistinctKeys(s, key)
    ensures DistinctKeys(t, key)
  {
    forall i, j | 0 <= i < j < |t| ensures key(t[i]) != key(t[j]) {
      assert t[i] in multiset(s) && t[j] in multiset(s);
      var a :| 0 <= a < |s| && s[a] == t[i];
      var b :| 0 <= b < |s| && s[b] == t[j];
      AppearsOnce(s, a, key);
      if t[i] == t[j] { AppearsTwice(t, i, j); }
    }
  }

  /** A list with distinct keys has one sorted arrangement, whatever order it started in. */
  lemma {:induction false} SortedIsUnique<T>(s: seq<T>, t: seq<T>, key: T -> string)
    requires IsSorted(s, key) && IsSorted(t, key) && DistinctKeys(s, key) && DistinctKeys(t, key)
    requires SameElements(s, t)
    ensures s == t
  {
    if t != [] {
      assert t[0] in s;
    }
    if s != [] {
      assert s[0] in t;
      var i :| 0 <= i < |t| && t[i] == s[0];
      var j :| 0 <= j < |s| && s[j] == t[0];
      LessEqTotal(key(s[0]), key(t[0]));
      assert i == 0 && j == 0;
      forall x | x in s[1..] ensures x in t[1..] { assert x in s && x in t; }
      forall x | x in t[1..] ensures x in s[1..] { assert x in t && x in s; }
      SortedIsUnique(s[1..], t[1..], key);
      assert s == [s[0]] + s[1..] && t == [t[0]] + t[1..];
    }
  }

  lemma SortCanonical<T>(s: seq<T>, t: seq<T>, key: T -> string)
    requires DistinctKeys(s, key) && DistinctKeys(t, key) && SameElements(s, t)
    ensures Sort(s, key) == Sort(t, key)
    ensures DistinctKeys(Sort(s, key), key)
  {
    SortFacts(s, key);
    SortFacts(t, key);
    DistinctByCount(s, Sort(s, key), key);
    DistinctByCount(t, Sort(t, key), key);
    SortedIsUnique(Sort(s, key), Sort(t, key), key);
  }

  lemma SortOfSorted<T>(s: seq<T>, key: T -> string)
    requires DistinctKeys(s, key)
    ensures Sort(Sort(s, key), key) == Sort(s, key)
  {
    SortFacts(s, key);
    DistinctByCount(s, Sort(s, key), key);
    SortCanonical(s, Sort(s, key), key);
  }
}
