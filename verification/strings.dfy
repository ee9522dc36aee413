/**
 Strings as JavaScript compares and sorts them, plus the prefix, suffix and
 ASCII case helpers the cache runtime's regular expressions reduce to.
 */
module Strings {

  /** JavaScript's default string order (`Array.prototype.sort` without a
      comparator): code unit by code unit, a proper prefix first. */
  predicate LexLe(a: string, b: string)
  {
    |a| == 0 || (|b| > 0 && (a[0] < b[0] || (a[0] == b[0] && LexLe(a[1..], b[1..]))))
  }

  lemma {:induction false} LexLeReflexive(a: string)
    ensures LexLe(a, a)
  {
    if |a| > 0 {
      LexLeReflexive(a[1..]);
    }
  }

  lemma {:induction false} LexLeTotal(a: string, b: string)
    ensures LexLe(a, b) || LexLe(b, a)
  {
    if |a| > 0 && |b| > 0 && a[0] == b[0] {
      LexLeTotal(a[1..], b[1..]);
    }
  }

  lemma {:induction false} LexLeTransitive(a: string, b: string, c: string)
    requires LexLe(a, b) && LexLe(b, c)
    ensures LexLe(a, c)
  {
    if |a| > 0 && a[0] == b[0] && b[0] == c[0] {
      LexLeTransitive(a[1..], b[1..], c[1..]);
    }
  }

  lemma {:induction false} LexLeAntisymmetric(a: string, b: string)
    requires LexLe(a, b) && LexLe(b, a)
    ensures a == b
  {
    if |a| > 0 {
      LexLeAntisymmetric(a[1..], b[1..]);
      assert a == [a[0]] + a[1..];
      assert b == [b[0]] + b[1..];
    }
  }

  /** `s` is ordered by `key` under the JavaScript string order. */
  predicate SortedBy<T>(s: seq<T>, key: T -> string)
  {
    forall i, j :: 0 <= i < j < |s| ==> LexLe(key(s[i]), key(s[j]))
  }

  /** Inserts `x` into a sorted sequence, before the first element whose key is not smaller. */
  function Insert<T>(x: T, s: seq<T>, key: T -> string): (r: seq<T>)
    requires SortedBy(s, key)
    ensures SortedBy(r, key)
    ensures multiset(r) == multiset(s) + multiset{x}
    ensures |r| == |s| + 1
  {
    if |s| == 0 then [x]
    else if LexLe(key(x), key(s[0])) then
      assert forall j :: 0 <= j < |s| ==> LexLe(key(x), key(s[j])) by {
        forall j | 0 <= j < |s| ensures LexLe(key(x), key(s[j])) {
          if j > 0 { LexLeTransitive(key(x), key(s[0]), key(s[j])); }
        }
      }
      [x] + s
    else
      var t := Insert(x, s[1..], key);
      LexLeTotal(key(x), key(s[0]));
      assert forall j :: 0 <= j < |t| ==> LexLe(key(s[0]), key(t[j])) by {
        forall j | 0 <= j < |t| ensures LexLe(key(s[0]), key(t[j])) {
          assert t[j] in multiset(t);
          if t[j] != x {
            assert t[j] in multiset(s[1..]);
            var k :| 0 <= k < |s[1..]| && s[1..][k] == t[j];
            assert s[k + 1] == t[j];
          }
        }
      }
      assert s == [s[0]] + s[1..];
      [s[0]] + t
  }

  /** Insertion sort by `key`; stable, and used wherever the source calls `.sort()`. */
  function SortBy<T>(s: seq<T>, key: T -> string): (r: seq<T>)
    ensures SortedBy(r, key)
    ensures multiset(r) == multiset(s)
    ensures |r| == |s|
  {
    if |s| == 0 then []
    else
      assert s == [s[0]] + s[1..];
      Insert(s[0], SortBy(s[1..], key), key)
  }

  /** Sorting keeps exactly the elements it was given. */
  lemma SortByMembers<T>(s: seq<T>, key: T -> string)
    ensures forall x :: x in SortBy(s, key) <==> x in s
  {
    var r := SortBy(s, key);
    forall x ensures x in r <==> x in s {
      assert x in r <==> x in multiset(r);
      assert x in s <==> x in multiset(s);
    }
  }

  /** No two distinct elements of `s` share a key (directory entry names, say). */
  ghost predicate DistinctKeys<T>(s: seq<T>, key: T -> string)
  {
    forall i, j :: 0 <= i < |s| && 0 <= j < |s| && key(s[i]) == key(s[j]) ==> s[i] == s[j]
  }

  /** Two sorted arrangements of the same elements with distinct keys are equal:
      sorting makes the result independent of the order the elements arrived in. */
  lemma {:induction false} SortedUnique<T>(s: seq<T>, t: seq<T>, key: T -> string)
    requires SortedBy(s, key) && SortedBy(t, key)
    requires multiset(s) == multiset(t)
    requires DistinctKeys(s, key)
    ensures s == t
  {
    assert |t| == |multiset(t)| == |multiset(s)| == |s|;
    if |s| > 0 {
      SortedHeadsEqual(s, t, key);
      TailMultiset(s, t);
      assert DistinctKeys(s[1..], key) by {
        forall a, b | 0 <= a < |s[1..]| && 0 <= b < |s[1..]| && key(s[1..][a]) == key(s[1..][b])
          ensures s[1..][a] == s[1..][b]
        {
          assert s[1..][a] == s[a + 1] && s[1..][b] == s[b + 1];
        }
      }
      SortedUnique(s[1..], t[1..], key);
      assert s == [s[0]] + s[1..];
      assert t == [t[0]] + t[1..];
    }
  }

  lemma SortedHeadsEqual<T>(s: seq<T>, t: seq<T>, key: T -> string)
    requires SortedBy(s, key) && SortedBy(t, key)
    requires multiset(s) == multiset(t) && |s| > 0
    requires DistinctKeys(s, key)
    ensures |t| > 0 && s[0] == t[0]
  {
    assert s[0] in multiset(t);
    var j :| 0 <= j < |t| && t[j] == s[0];
    assert t[0] in multiset(s);
    var i :| 0 <= i < |s| && s[i] == t[0];
    assert LexLe(key(s[0]), key(s[i])) by { if i == 0 { LexLeReflexive(key(s[0])); } }
    assert LexLe(key(t[0]), key(t[j])) by { if j == 0 { LexLeReflexive(key(t[0])); } }
    LexLeAntisymmetric(key(s[0]), key(t[0]));
  }

  lemma TailMultiset<T>(s: seq<T>, t: seq<T>)
    requires multiset(s) == multiset(t) && |s| > 0 && |t| > 0 && s[0] == t[0]
    ensures multiset(s[1..]) == multiset(t[1..])
  {
    assert s == [s[0]] + s[1..];
    assert t == [t[0]] + t[1..];
    assert multiset(s) == multiset{s[0]} + multiset(s[1..]);
    assert multiset(t) == multiset{t[0]} + multiset(t[1..]);
    var a, b := multiset(s[1..]), multiset(t[1..]);
    assert forall x :: a[x] == multiset(s)[x] - (if x == s[0] then 1 else 0);
    assert forall x :: b[x] == multiset(t)[x] - (if x == t[0] then 1 else 0);
  }

  /** Sorting an already sorted sequence changes nothing. */
  lemma {:induction false} SortSorted<T>(s: seq<T>, key: T -> string)
    requires SortedBy(s, key)
    ensures SortBy(s, key) == s
  {
    if |s| > 0 {
      assert SortedBy(s[1..], key);
      SortSorted(s[1..], key);
      assert s == [s[0]] + s[1..];
      if |s| > 1 {
        assert LexLe(key(s[0]), key(s[1..][0]));
      }
    }
  }

  function MapSeq<A, B>(f: A -> B, s: seq<A>): (r: seq<B>)
    ensures |r| == |s| && forall i :: 0 <= i < |s| ==> r[i] == f(s[i])
  {
    seq(|s|, i requires 0 <= i < |s| => f(s[i]))
  }

  /** Sorting commutes with a map that keeps every key. */
  lemma {:induction false} SortMapCommute<A, B>(f: A -> B, s: seq<A>, ka: A -> string, kb: B -> string)
    requires forall x :: kb(f(x)) == ka(x)
    ensures SortBy(MapSeq(f, s), kb) == MapSeq(f, SortBy(s, ka))
  {
    if |s| > 0 {
      SortMapCommute(f, s[1..], ka, kb);
      assert MapSeq(f, s)[1..] == MapSeq(f, s[1..]);
      InsertMapCommute(f, s[0], SortBy(s[1..], ka), ka, kb);
    }
  }

  lemma {:induction false} InsertMapCommute<A, B>(f: A -> B, x: A, s: seq<A>, ka: A -> string, kb: B -> string)
    requires forall y :: kb(f(y)) == ka(y)
    requires SortedBy(s, ka) && SortedBy(MapSeq(f, s), kb)
    ensures Insert(f(x), MapSeq(f, s), kb) == MapSeq(f, Insert(x, s, ka))
  {
    if |s| > 0 {
      assert MapSeq(f, s)[1..] == MapSeq(f, s[1..]);
      if !LexLe(ka(x), ka(s[0])) {
        InsertMapCommute(f, x, s[1..], ka, kb);
      }
    }
  }

  /** Distinct keys survive any rearrangement of the same elements. */
  lemma DistinctKeysPermutation<T>(s: seq<T>, t: seq<T>, key: T -> string)
    requires multiset(s) == multiset(t) && DistinctKeys(s, key)
    ensures DistinctKeys(t, key)
  {
    forall i, j | 0 <= i < |t| && 0 <= j < |t| && key(t[i]) == key(t[j])
      ensures t[i] == t[j]
    {
      assert t[i] in multiset(s) && t[j] in multiset(s);
      var a :| 0 <= a < |s| && s[a] == t[i];
      var b :| 0 <= b < |s| && s[b] == t[j];
    }
  }

  /** `p` is a prefix of `s` (`String.prototype.startsWith`). */
  predicate StartsWith(s: string, p: string)
  {
    |p| <= |s| && s[..|p|] == p
  }

  /** `p` is a suffix of `s` (`String.prototype.endsWith`, or a regular expression anchored with `$`). */
  predicate EndsWith(s: string, p: string)
  {
    |p| <= |s| && s[|s| - |p|..] == p
  }

  lemma {:induction false} StartsWithTransitive(s: string, m: string, p: string)
    requires StartsWith(s, m) && StartsWith(m, p)
    ensures StartsWith(s, p)
  {
    assert s[..|p|] == s[..|m|][..|p|];
  }

  /** Lower-cases the ASCII letters only, as a regular expression with the `i` flag
      (and without `u`) compares the ASCII patterns used by the cache runtime. */
  function LowerChar(c: char): (d: char)
    ensures 'A' <= c <= 'Z' ==> d as int == c as int + 32
    ensures !('A' <= c <= 'Z') ==> d == c
  {
    if 'A' <= c <= 'Z' then (c as int + 32) as char else c
  }

  function Lower(s: string): (r: string)
    ensures |r| == |s|
    ensures forall i :: 0 <= i < |s| ==> r[i] == LowerChar(s[i])
  {
    if |s| == 0 then [] else [LowerChar(s[0])] + Lower(s[1..])
  }

  /** Lowering works character by character, so it distributes over concatenation. */
  lemma LowerAppend(a: string, b: string)
    ensures Lower(a + b) == Lower(a) + Lower(b)
  {
    assert forall i :: 0 <= i < |a + b| ==> Lower(a + b)[i] == (Lower(a) + Lower(b))[i];
  }

  /** Lowering twice is lowering once. */
  lemma LowerIdempotent(s: string)
    ensures Lower(Lower(s)) == Lower(s)
  {
    assert forall i :: 0 <= i < |s| ==> Lower(Lower(s))[i] == Lower(s)[i];
  }

  /** A prefix with no upper-case letter survives lowering. */
  lemma LowerKeepsPrefix(s: string, p: string)
    requires Lower(p) == p && StartsWith(s, p)
    ensures StartsWith(Lower(s), p)
  {
    assert forall i :: 0 <= i < |p| ==> Lower(s)[i] == LowerChar(p[i]) == Lower(p)[i];
  }
}
