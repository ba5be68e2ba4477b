/** Sorting as the library sorts do it: the values in order, none lost. Insertion stands for whatever algorithm
    the library uses, as only the order and the values matter to what is built on it; the orders are those of
    numbers and of strings by code unit. */
module Sorting {
  /** Inserts x before the first entry it precedes. */
  function Insert<T>(less: (T, T) -> bool, x: T, s: seq<T>): (r: seq<T>)
    ensures multiset(r) == multiset(s) + multiset{x} && |r| == |s| + 1
  {
    if s == [] then [x]
    else if less(x, s[0]) then assert [x] + s == [x] + s; [x] + s
    else
      assert s == [s[0]] + s[1..];
      [s[0]] + Insert(less, x, s[1..])
  }

  /** s in the order of less. */
  function Sorted<T>(less: (T, T) -> bool, s: seq<T>): (r: seq<T>)
    ensures multiset(r) == multiset(s) && |r| == |s|
  {
    if s == [] then []
    else
      assert s == s[..|s| - 1] + [s[|s| - 1]];
      Insert(less, s[|s| - 1], Sorted(less, s[..|s| - 1]))
  }

  // ----- The result is in order

  /** less is a strict order in which incomparable is transitive, as a sort needs. */
  ghost predicate WeakOrder<T(!new)>(less: (T, T) -> bool) {
    && (forall a, b :: less(a, b) ==> !less(b, a))
    && (forall a, b, c :: !less(b, a) && !less(c, b) ==> !less(c, a))
  }

  ghost predicate Ascending<T>(less: (T, T) -> bool, s: seq<T>) {
    forall i, j :: 0 <= i < j < |s| ==> !less(s[j], s[i])
  }

  lemma {:induction false} InsertAscending<T(!new)>(less: (T, T) -> bool, x: T, s: seq<T>)
    requires WeakOrder(less) && Ascending(less, s)
    ensures Ascending(less, Insert(less, x, s))
  {
    if s != [] && !less(x, s[0]) {
      var rest := Insert(less, x, s[1..]);
      InsertAscending(less, x, s[1..]);
      forall i | 0 <= i < |rest| ensures !less(rest[i], s[0]) {
        assert rest[i] in multiset(rest);
        assert rest[i] in s[1..] || rest[i] == x;
      }
      assert Insert(less, x, s) == [s[0]] + rest;
    }
  }

  lemma {:induction false} SortedAscending<T(!new)>(less: (T, T) -> bool, s: seq<T>)
    requires WeakOrder(less)
    ensures Ascending(less, Sorted(less, s))
  {
    if s != [] {
      SortedAscending(less, s[..|s| - 1]);
      InsertAscending(less, s[|s| - 1], Sorted(less, s[..|s| - 1]));
    }
  }

  /** less is a strict order in which only equals are incomparable. */
  ghost predicate TotalOrder<T(!new)>(less: (T, T) -> bool) {
    WeakOrder(less) && forall x, y :: !less(x, y) && !less(y, x) ==> x == y
  }

  /** No value is above the last. */
  lemma NoneAboveLast<T(!new)>(less: (T, T) -> bool, s: seq<T>, x: T)
    requires WeakOrder(less) && Ascending(less, s) && x in multiset(s)
    ensures s != [] && !less(s[|s| - 1], x)
  {
    assert x in s;
    var i :| 0 <= i < |s| && s[i] == x;
  }

  lemma WithoutLast<T>(s: seq<T>)
    requires s != []
    ensures multiset(s[..|s| - 1]) == multiset(s) - multiset{s[|s| - 1]} && s[|s| - 1] in multiset(s)
  {
    assert s == s[..|s| - 1] + [s[|s| - 1]];
  }

  /** Ascending listings of the same values end in the same one. */
  lemma SameLast<T(!new)>(less: (T, T) -> bool, a: seq<T>, b: seq<T>)
    requires TotalOrder(less) && Ascending(less, a) && Ascending(less, b) && multiset(a) == multiset(b) && a != []
    ensures b != [] && a[|a| - 1] == b[|b| - 1]
  {
    hide Ascending;
    WithoutLast(a);
    NoneAboveLast(less, b, a[|a| - 1]);
    WithoutLast(b);
    NoneAboveLast(less, a, b[|b| - 1]);
  }

  lemma FrontsMatch<T>(a: seq<T>, b: seq<T>)
    requires multiset(a) == multiset(b) && a != [] && b != [] && a[|a| - 1] == b[|b| - 1]
    ensures multiset(a[..|a| - 1]) == multiset(b[..|b| - 1])
  {
    WithoutLast(a);
    WithoutLast(b);
  }

  lemma FrontAscending<T>(less: (T, T) -> bool, s: seq<T>)
    requires Ascending(less, s) && s != []
    ensures Ascending(less, s[..|s| - 1])
  {
  }

  /** In a total order there is one ascending listing of the same values. */
  lemma {:induction false} OneAscending<T(!new)>(less: (T, T) -> bool, a: seq<T>, b: seq<T>)
    requires TotalOrder(less) && Ascending(less, a) && Ascending(less, b) && multiset(a) == multiset(b)
    ensures a == b
  {
    if a == [] {
      assert |multiset(b)| == 0;
    } else {
      hide TotalOrder, Ascending;
      SameLast(less, a, b);
      FrontsMatch(a, b);
      FrontAscending(less, a);
      FrontAscending(less, b);
      OneAscending(less, a[..|a| - 1], b[..|b| - 1]);
      assert a == a[..|a| - 1] + [a[|a| - 1]] && b == b[..|b| - 1] + [b[|b| - 1]];
    }
  }

  // ----- Lexicographic order

  /** The order of sequences by their first difference, a prefix before the whole. */
  predicate LexLess<T(==)>(less: (T, T) -> bool, a: seq<T>, b: seq<T>) {
    if b == [] then false
    else if a == [] then true
    else less(a[0], b[0]) || (a[0] == b[0] && LexLess(less, a[1..], b[1..]))
  }

  /** a and b agree up to i, where a is less. */
  ghost predicate LessAt<T(!new)>(less: (T, T) -> bool, a: seq<T>, b: seq<T>, i: int) {
    0 <= i < |a| && i < |b| && a[..i] == b[..i] && less(a[i], b[i])
  }

  lemma LessOneOn<T(!new)>(less: (T, T) -> bool, a: seq<T>, b: seq<T>, i: int)
    requires a != [] && b != [] && a[0] == b[0] && i >= 0
    ensures LessAt(less, a[1..], b[1..], i) <==> LessAt(less, a, b, i + 1)
  {
    if i < |a| - 1 && i < |b| - 1 {
      assert a[..i + 1] == [a[0]] + a[1..][..i] && b[..i + 1] == [b[0]] + b[1..][..i];
    }
  }

  /** One sequence comes before another when it is a proper prefix of it, or is less where they first differ. */
  lemma {:induction false} LexMeans<T(!new)>(less: (T, T) -> bool, a: seq<T>, b: seq<T>)
    requires forall x :: !less(x, x)
    ensures LexLess(less, a, b) <==> (a <= b && a != b) || exists i :: LessAt(less, a, b, i)
  {
    if a == [] || b == [] {
    } else if a[0] == b[0] {
      hide LessAt;
      LexMeans(less, a[1..], b[1..]);
      assert a == [a[0]] + a[1..] && b == [b[0]] + b[1..];
      forall i | i >= 0 ensures LessAt(less, a[1..], b[1..], i) <==> LessAt(less, a, b, i + 1) {
        LessOneOn(less, a, b, i);
      }
      if i :| LessAt(less, a[1..], b[1..], i) {
        AtLeastZero(less, a[1..], b[1..], i);
        assert LessAt(less, a, b, i + 1);
      }
      if i :| LessAt(less, a, b, i) {
        AfterFirst(less, a, b, i);
        assert LessAt(less, a[1..], b[1..], i - 1);
      }
    } else {
      AtFirst(less, a, b);
    }
  }

  lemma AtLeastZero<T(!new)>(less: (T, T) -> bool, a: seq<T>, b: seq<T>, i: int)
    ensures LessAt(less, a, b, i) ==> i >= 0
  {
  }

  lemma AfterFirst<T(!new)>(less: (T, T) -> bool, a: seq<T>, b: seq<T>, i: int)
    requires (forall x :: !less(x, x)) && LessAt(less, a, b, i) && a[0] == b[0]
    ensures i > 0
  {
  }

  lemma LaterAgrees<T(!new)>(less: (T, T) -> bool, a: seq<T>, b: seq<T>, i: int)
    requires a != [] && b != []
    ensures LessAt(less, a, b, i) && i > 0 ==> a[0] == b[0]
  {
    if LessAt(less, a, b, i) && i > 0 {
      assert a[..i][0] == b[..i][0];
    }
  }

  lemma AtFirst<T(!new)>(less: (T, T) -> bool, a: seq<T>, b: seq<T>)
    requires a != [] && b != [] && a[0] != b[0]
    ensures less(a[0], b[0]) <==> exists i :: LessAt(less, a, b, i)
  {
    forall i | LessAt(less, a, b, i) ensures i == 0 {
      LaterAgrees(less, a, b, i);
    }
    if less(a[0], b[0]) { assert LessAt(less, a, b, 0); }
  }

  lemma {:induction false} LexAsymmetric<T(!new)>(less: (T, T) -> bool, a: seq<T>, b: seq<T>)
    requires TotalOrder(less)
    ensures LexLess(less, a, b) ==> !LexLess(less, b, a)
    ensures !LexLess(less, a, b) && !LexLess(less, b, a) ==> a == b
  {
    if a != [] && b != [] && a[0] == b[0] {
      LexAsymmetric(less, a[1..], b[1..]);
      assert a == [a[0]] + a[1..] && b == [b[0]] + b[1..];
    }
  }

  lemma {:induction false} LexNotLess<T(!new)>(less: (T, T) -> bool, a: seq<T>, b: seq<T>, c: seq<T>)
    requires TotalOrder(less) && !LexLess(less, b, a) && !LexLess(less, c, b)
    ensures !LexLess(less, c, a)
  {
    if a != [] && b != [] && c != [] && a[0] == b[0] == c[0] {
      LexNotLess(less, a[1..], b[1..], c[1..]);
    }
  }

  /** Lexicographic order is total when the order of the elements is. */
  lemma LexTotal<T(!new)>(less: (T, T) -> bool, lex: (seq<T>, seq<T>) -> bool)
    requires TotalOrder(less) && forall a, b :: lex(a, b) == LexLess(less, a, b)
    ensures TotalOrder(lex)
  {
    forall a, b ensures (lex(a, b) ==> !lex(b, a)) && (!lex(a, b) && !lex(b, a) ==> a == b) {
      LexAsymmetric(less, a, b);
    }
    forall a, b, c | !lex(b, a) && !lex(c, b) ensures !lex(c, a) {
      LexNotLess(less, a, b, c);
    }
  }

  predicate CharLess(a: char, b: char) {
    a < b
  }

  /** Lexicographic order of strings. */
  predicate StringLess(a: string, b: string) {
    LexLess(CharLess, a, b)
  }

  /** Strings are in the order of a dictionary. */
  lemma StringLessMeans(a: string, b: string)
    ensures StringLess(a, b) <==>
              || (a <= b && a != b)
              || exists i :: 0 <= i < |a| && i < |b| && a[..i] == b[..i] && a[i] < b[i]
  {
    LexMeans(CharLess, a, b);
    assert forall i :: LessAt(CharLess, a, b, i) <==>
                       0 <= i < |a| && i < |b| && a[..i] == b[..i] && a[i] < b[i];
  }

  lemma StringsTotal()
    ensures TotalOrder(StringLess)
  {
    LexTotal(CharLess, StringLess);
  }
}
