/** Lexicographic order of strings, sorting by a total order, and the uniqueness of sorted lists. */
module Ordering {

  /** Byte order of UTF-8 text, which is code point order. */
  predicate StrLeq(a: string, b: string) {
    a == [] || (b != [] && (a[0] < b[0] || (a[0] == b[0] && StrLeq(a[1..], b[1..]))))
  }

  lemma {:induction false} StrTotal(a: string, b: string)
    ensures StrLeq(a, b) || StrLeq(b, a)
  {
    if a != [] && b != [] && a[0] == b[0] {
      StrTotal(a[1..], b[1..]);
    }
  }

  lemma {:induction false} StrAntisymmetric(a: string, b: string)
    requires StrLeq(a, b) && StrLeq(b, a)
    ensures a == b
  {
    if a != [] && b != [] {
      StrAntisymmetric(a[1..], b[1..]);
      assert a == [a[0]] + a[1..] && b == [b[0]] + b[1..];
    }
  }

  lemma {:induction false} StrTransitive(a: string, b: string, c: string)
    requires StrLeq(a, b) && StrLeq(b, c)
    ensures StrLeq(a, c)
  {
    if a != [] && a[0] == b[0] && b[0] == c[0] {
      StrTransitive(a[1..], b[1..], c[1..]);
    }
  }

  /** The strings first differ at k, where `a` has ended or has the smaller character. */
  predicate FirstDifference(a: string, b: string, k: nat) {
    && k <= |a| && k < |b| && a[..k] == b[..k]
    && (k == |a| || a[k] < b[k])
  }

  ghost predicate Smaller(a: string, b: string) { exists k :: FirstDifference(a, b, k) }

  /** The order is decided at the first difference. */
  lemma {:induction false} SmallerExactly(a: string, b: string)
    ensures Smaller(a, b) <==> StrLeq(a, b) && a != b
    ensures StrLeq(b, a) <==> !Smaller(a, b)
  {
    if a == [] || b == [] || a[0] != b[0] {
      if b != [] && (a == [] || a[0] < b[0]) {
        assert FirstDifference(a, b, 0);
      }
    } else {
      SmallerExactly(a[1..], b[1..]);
      assert a == [a[0]] + a[1..] && b == [b[0]] + b[1..];
      if k: nat :| FirstDifference(a[1..], b[1..], k) {
        assert a[..k + 1] == [a[0]] + a[1..][..k] && b[..k + 1] == [b[0]] + b[1..][..k];
        assert FirstDifference(a, b, k + 1);
      }
      if k: nat :| FirstDifference(a, b, k) {
        assert k > 0 && a[1..][..k - 1] == a[..k][1..] && b[1..][..k - 1] == b[..k][1..];
        assert FirstDifference(a[1..], b[1..], k - 1);
      }
    }
  }

  /** Total and transitive. */
  ghost predicate Order<T(!new)>(leq: (T, T) -> bool) {
    (forall x, y :: leq(x, y) || leq(y, x)) && forall x, y, z :: leq(x, y) && leq(y, z) ==> leq(x, z)
  }

  ghost predicate Sorted<T>(s: seq<T>, leq: (T, T) -> bool) {
    forall i, j :: 0 <= i < j < |s| ==> leq(s[i], s[j])
  }

  function Insert<T>(x: T, s: seq<T>, leq: (T, T) -> bool): seq<T> {
    if s == [] || leq(x, s[0]) then [x] + s else [s[0]] + Insert(x, s[1..], leq)
  }

  /** Stable insertion sort; the program's sorts are stable too. */
  function Sort<T>(s: seq<T>, leq: (T, T) -> bool): seq<T> {
    if s == [] then [] else Insert(s[0], Sort(s[1..], leq), leq)
  }

  lemma {:induction false} InsertKeeps<T>(x: T, s: seq<T>, leq: (T, T) -> bool)
    ensures multiset(Insert(x, s, leq)) == multiset(s) + multiset{x}
  {
    if s != [] && !leq(x, s[0]) {
      InsertKeeps(x, s[1..], leq);
      assert s == [s[0]] + s[1..];
    }
  }

  ghost predicate Below<T>(low: T, s: seq<T>, leq: (T, T) -> bool) { forall k :: 0 <= k < |s| ==> leq(low, s[k]) }

  /** What is below x and below all of s is below everything after the insertion. */
  lemma InsertedAbove<T(!new)>(low: T, x: T, s: seq<T>, leq: (T, T) -> bool)
    requires leq(low, x) && Below(low, s, leq)
    ensures Below(low, Insert(x, s, leq), leq)
  {
    InsertKeeps(x, s, leq);
    var t := Insert(x, s, leq);
    forall k | 0 <= k < |t| ensures leq(low, t[k]) {
      assert t[k] in multiset(t);
      assert t[k] == x || t[k] in s;
    }
  }

  lemma SortedCons<T(!new)>(low: T, s: seq<T>, leq: (T, T) -> bool)
    requires Sorted(s, leq) && Below(low, s, leq)
    ensures Sorted([low] + s, leq)
  {
  }

  lemma {:induction false} InsertSorted<T(!new)>(x: T, s: seq<T>, leq: (T, T) -> bool)
    requires Order(leq) && Sorted(s, leq)
    ensures Sorted(Insert(x, s, leq), leq)
  {
    if s != [] {
      if leq(x, s[0]) {
        forall k | 0 <= k < |s| ensures leq(x, s[k]) {
          assert k > 0 ==> leq(s[0], s[k]);
        }
        SortedCons(x, s, leq);
      } else {
        assert leq(s[0], x);
        InsertSorted(x, s[1..], leq);
        InsertedAbove(s[0], x, s[1..], leq);
        SortedCons(s[0], Insert(x, s[1..], leq), leq);
      }
    }
  }

  lemma InsertSorts<T(!new)>(x: T, s: seq<T>, leq: (T, T) -> bool)
    requires Order(leq) && Sorted(s, leq)
    ensures Sorted(Insert(x, s, leq), leq) && multiset(Insert(x, s, leq)) == multiset(s) + multiset{x}
  {
    InsertKeeps(x, s, leq);
    InsertSorted(x, s, leq);
  }

  /** Sorting yields a sorted permutation. */
  lemma {:induction false} SortSorts<T(!new)>(s: seq<T>, leq: (T, T) -> bool)
    requires Order(leq)
    ensures Sorted(Sort(s, leq), leq) && multiset(Sort(s, leq)) == multiset(s) && |Sort(s, leq)| == |s|
  {
    if s != [] {
      SortSorts(s[1..], leq);
      InsertSorts(s[0], Sort(s[1..], leq), leq);
      assert s == [s[0]] + s[1..];
    }
    assert |multiset(Sort(s, leq))| == |multiset(s)|;
  }

  /** Elements that are equal in the order are the same, and none occurs twice. */
  ghost predicate Strict<T>(s: seq<T>, leq: (T, T) -> bool) {
    forall i, j :: 0 <= i < j < |s| ==> !(leq(s[i], s[j]) && leq(s[j], s[i]))
  }

  /**
   * A sorted list that holds only elements of another sorted list, and all of that list's first `m`, starts with
   * those first `m`.
   */
  lemma {:induction false} SamePrefix<T(!new)>(part: seq<T>, whole: seq<T>, m: nat, leq: (T, T) -> bool)
    requires Order(leq) && Sorted(part, leq) && Sorted(whole, leq) && Strict(whole, leq) && m <= |whole|
    requires forall x :: x in part ==> x in whole
    requires Strict(part, leq)
    requires forall i :: 0 <= i < m ==> whole[i] in part
    ensures m <= |part| && part[..m] == whole[..m]
    decreases m
  {
    if m > 0 {
      assert whole[0] in part && part[0] in whole;
      HeadIsLeast(part, whole[0], leq);
      HeadIsLeast(whole, part[0], leq);
      var i :| 0 <= i < |whole| && whole[i] == part[0];
      assert i == 0;
      forall x | x in part[1..] ensures x in whole[1..] {
        var j :| 0 <= j < |part[1..]| && part[1..][j] == x;
        assert part[1 + j] == x && x in part && x in whole;
        var k :| 0 <= k < |whole| && whole[k] == x;
        assert whole[1..][k - 1] == x;
      }
      forall i | 0 <= i < m - 1 ensures whole[1..][i] in part[1..] {
        var x := whole[1 + i];
        assert x in part && x != whole[0];
        var j :| 0 <= j < |part| && part[j] == x;
        assert part[1..][j - 1] == x;
      }
      SamePrefix(part[1..], whole[1..], m - 1, leq);
      assert part[..m] == [part[0]] + part[1..][..m - 1];
      assert whole[..m] == [whole[0]] + whole[1..][..m - 1];
    }
  }

  lemma HeadIsLeast<T(!new)>(s: seq<T>, x: T, leq: (T, T) -> bool)
    requires Order(leq) && Sorted(s, leq) && x in s
    ensures leq(s[0], x)
  {
  }

  /** Two sorted lists of the same elements are the same list. */
  lemma SortedUnique<T(!new)>(a: seq<T>, b: seq<T>, leq: (T, T) -> bool)
    requires Order(leq) && Sorted(a, leq) && Sorted(b, leq) && Strict(a, leq) && Strict(b, leq)
    requires multiset(a) == multiset(b)
    ensures a == b
  {
    assert |multiset(a)| == |multiset(b)|;
    forall x | x in a ensures x in b { assert x in multiset(a); }
    forall x | x in b ensures x in a { assert x in multiset(b); }
    SamePrefix(a, b, |b|, leq);
  }

  ghost predicate Duplicateless<T>(s: seq<T>) { forall i, j :: 0 <= i < j < |s| ==> s[i] != s[j] }

  lemma OnceOnly<T>(s: seq<T>, p: nat)
    requires Duplicateless(s) && p < |s|
    ensures multiset(s)[s[p]] == 1
  {
    assert s == s[..p] + [s[p]] + s[p + 1..];
    assert s[p] !in s[..p] && s[p] !in s[p + 1..];
  }

  lemma TwiceAtLeast<T>(s: seq<T>, i: nat, j: nat)
    requires i < j < |s| && s[i] == s[j]
    ensures multiset(s)[s[i]] >= 2
  {
    assert s == s[..j] + [s[j]] + s[j + 1..];
    assert s[i] in s[..j];
  }

  /** Part of a list without duplicates, rearranged, has none either. */
  lemma DuplicatelessPart<T>(whole: seq<T>, part: seq<T>)
    requires Duplicateless(whole) && multiset(part) <= multiset(whole)
    ensures Duplicateless(part) && forall x :: x in part ==> x in whole
  {
    forall x | x in part ensures x in whole { assert x in multiset(part) && x in multiset(whole); }
    forall i, j | 0 <= i < j < |part| ensures part[i] != part[j] {
      assert part[i] in whole;
      var p :| 0 <= p < |whole| && whole[p] == part[i];
      OnceOnly(whole, p);
      if part[i] == part[j] {
        TwiceAtLeast(part, i, j);
      }
    }
  }
}
