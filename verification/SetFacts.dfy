/** Facts about finite sets and listings that loops over map keys rely on: a set that is not empty has a
    member, a listing without repeats is as long as its set, and two listings of the same values are
    permutations of each other. */
module SetFacts {
  /** Some member of a non-empty set. */
  lemma Member<T>(s: set<T>) returns (x: T)
    requires s != {}
    ensures x in s
  {
    x :| x in s;
  }

  /** A subset is no larger. */
  lemma {:induction false} SubsetSize<T>(a: set<T>, b: set<T>)
    requires a <= b
    ensures |a| <= |b|
  {
    if a != {} {
      var x := Member(a);
      SubsetSize(a - {x}, b - {x});
    }
  }

  /** A subset as large as the whole is the whole. */
  lemma SubsetOfSize<T>(a: set<T>, b: set<T>)
    requires a <= b && |a| >= |b|
    ensures a == b
  {
    if b - a != {} {
      var x := Member(b - a);
      SubsetSize(a, b - {x});
      assert false;
    }
    assert b <= a by {
      forall x | x in b ensures x in a {
        assert x in b - a || x in a;
      }
    }
  }

  // ----- Listings

  ghost function SetOf<T>(s: seq<T>): set<T> {
    set x | x in s
  }

  /** Where the values of the kind stand. */
  ghost function Places<T>(s: seq<T>, p: T -> bool): set<int> {
    set i | 0 <= i < |s| && p(s[i])
  }

  lemma PlacesMore<T>(s: seq<T>, p: T -> bool)
    requires s != []
    ensures |Places(s, p)| == |Places(s[..|s| - 1], p)| + if p(s[|s| - 1]) then 1 else 0
  {
    var k := |s| - 1;
    assert Places(s, p) == Places(s[..k], p) + if p(s[k]) then {k} else {};
  }

  ghost predicate NoDuplicates<T>(s: seq<T>) {
    forall i, j :: 0 <= i < j < |s| ==> s[i] != s[j]
  }

  /** A listing without duplicates holds each of its values once. */
  lemma {:induction false} OneOfEach<T(!new)>(s: seq<T>, x: T)
    requires NoDuplicates(s)
    ensures multiset(s)[x] == if x in s then 1 else 0
  {
    if s != [] {
      var k := |s| - 1;
      OneOfEach(s[..k], x);
      assert s == s[..k] + [s[k]];
      assert s[k] !in s[..k];
    }
  }

  lemma CountedTwice<T>(s: seq<T>, i: nat, j: nat)
    requires i < j < |s| && s[i] == s[j]
    ensures multiset(s)[s[i]] >= 2
  {
    assert s == s[..i] + [s[i]] + s[i + 1..j] + [s[j]] + s[j + 1..];
  }

  /** Reordering keeps the values and keeps them distinct. */
  lemma Reordered<T(!new)>(a: seq<T>, b: seq<T>)
    requires multiset(a) == multiset(b) && NoDuplicates(a)
    ensures NoDuplicates(b) && forall x :: x in a <==> x in b
  {
    forall x ensures x in a <==> x in b {
      assert (x in multiset(a) <==> x in a) && (x in multiset(b) <==> x in b);
    }
    forall i, j | 0 <= i < j < |b| ensures b[i] != b[j] {
      if b[i] == b[j] {
        CountedTwice(b, i, j);
        OneOfEach(a, b[i]);
      }
    }
  }

  /** Two listings of the same values without duplicates are reorderings of each other. */
  lemma SameValues<T(!new)>(a: seq<T>, b: seq<T>)
    requires NoDuplicates(a) && NoDuplicates(b) && forall x :: x in a <==> x in b
    ensures multiset(a) == multiset(b)
  {
    forall x ensures multiset(a)[x] == multiset(b)[x] {
      OneOfEach(a, x);
      OneOfEach(b, x);
    }
  }

  /** The rest of a listing without one entry. */
  lemma WithoutEntry<T>(s: seq<T>, i: nat)
    requires i < |s|
    ensures multiset(s[..i] + s[i + 1..]) == multiset(s) - multiset{s[i]}
  {
    assert s == s[..i] + [s[i]] + s[i + 1..];
  }

  /** A reordering holds the last entry somewhere; the rests are reorderings too. */
  lemma MatchLast<T>(a: seq<T>, b: seq<T>) returns (i: nat)
    requires multiset(a) == multiset(b) && a != []
    ensures i < |b| && b[i] == a[|a| - 1]
    ensures multiset(a[..|a| - 1]) == multiset(b[..i] + b[i + 1..])
  {
    var k := |a| - 1;
    assert a == a[..k] + [a[k]] && a[k] in multiset(a);
    assert a[k] in b;
    i :| i < |b| && b[i] == a[k];
    WithoutEntry(b, i);
    assert a[..k] + a[k + 1..] == a[..k];
    WithoutEntry(a, k);
  }
}
