/** Slash-separated paths as Go's path package cleans and joins them, as far as the layout of a bundle
    needs them. */
module BundlePaths {
  import opened Manifest

  const SLASH: Byte := 47
  const DOT: Byte := 46
  const PARENT: Bytes := [DOT, DOT]

  // ----- Segments

  /** The segments between the slashes, at least one. */
  function Split(s: Bytes): (segs: seq<Bytes>)
    ensures |segs| >= 1 && forall seg :: seg in segs ==> SLASH !in seg
  {
    if s == [] then [[]]
    else
      var rest := Split(s[1..]);
      if s[0] == SLASH then [[]] + rest else [[s[0]] + rest[0]] + rest[1..]
  }

  function JoinAll(segs: seq<Bytes>): Bytes {
    if segs == [] then []
    else if |segs| == 1 then segs[0]
    else segs[0] + [SLASH] + JoinAll(segs[1..])
  }

  lemma {:induction false} JoinSplit(s: Bytes)
    ensures JoinAll(Split(s)) == s
  {
    if s != [] {
      var rest := Split(s[1..]);
      JoinSplit(s[1..]);
      assert s == [s[0]] + s[1..];
      if s[0] == SLASH {
        assert Split(s)[1..] == rest;
      } else {
        assert Split(s)[1..] == rest[1..];
      }
    }
  }

  /** Splitting at a first slash. */
  lemma {:induction false} SplitFirst(seg: Bytes, rest: Bytes)
    requires SLASH !in seg
    ensures Split(seg) == [seg]
    ensures Split(seg + [SLASH] + rest) == [seg] + Split(rest)
  {
    var s := seg + [SLASH] + rest;
    if seg == [] {
      assert s[1..] == rest;
    } else {
      SplitFirst(seg[1..], rest);
      assert seg == [seg[0]] + seg[1..];
      assert s[1..] == seg[1..] + [SLASH] + rest;
    }
  }

  lemma {:induction false} SplitJoin(segs: seq<Bytes>)
    requires segs != [] && forall seg :: seg in segs ==> SLASH !in seg
    ensures Split(JoinAll(segs)) == segs
  {
    hide Split;
    if |segs| == 1 {
      SplitFirst(segs[0], []);
      assert segs == [segs[0]];
    } else {
      assert segs == [segs[0]] + segs[1..];
      assert forall seg :: seg in segs[1..] ==> seg in segs;
      SplitJoin(segs[1..]);
      SplitFirst(segs[0], JoinAll(segs[1..]));
    }
  }

  // ----- Cleaning

  /** The segments kept once one more is read: empty ones and dots are dropped, and a parent takes back the segment
      before it. */
  function Push(kept: seq<Bytes>, seg: Bytes, rooted: bool): seq<Bytes> {
    if seg == [] || seg == [DOT] then kept
    else if seg != PARENT then kept + [seg]
    else if kept != [] && kept[|kept| - 1] != PARENT then kept[..|kept| - 1]
    else if rooted then kept
    else kept + [seg]
  }

  function Reduce(segs: seq<Bytes>, rooted: bool): seq<Bytes> {
    if segs == [] then [] else Push(Reduce(segs[..|segs| - 1], rooted), segs[|segs| - 1], rooted)
  }

  predicate IsAbs(s: Bytes) {
    s != [] && s[0] == SLASH
  }

  /** path.Clean. */
  function CleanPath(s: Bytes): Bytes {
    var body := JoinAll(Reduce(Split(s), IsAbs(s)));
    if IsAbs(s) then [SLASH] + body else if body == [] then [DOT] else body
  }

  /** path.Join of two elements; an empty one is left out. */
  function PathJoin(root: Bytes, name: Bytes): Bytes {
    if root == [] && name == [] then [] else CleanPath(if root == [] then name else root + [SLASH] + name)
  }

  // ----- The rules of cleaning

  lemma {:induction false} SameKeptSameRest(a: seq<Bytes>, b: seq<Bytes>, post: seq<Bytes>, rooted: bool)
    requires Reduce(a, rooted) == Reduce(b, rooted)
    ensures Reduce(a + post, rooted) == Reduce(b + post, rooted)
  {
    if post == [] {
      assert a + post == a && b + post == b;
    } else {
      var k := |post| - 1;
      SameKeptSameRest(a, b, post[..k], rooted);
      assert (a + post)[..|a + post| - 1] == a + post[..k] && (b + post)[..|b + post| - 1] == b + post[..k];
    }
  }

  lemma ReduceMore(segs: seq<Bytes>, seg: Bytes, rooted: bool)
    ensures Reduce(segs + [seg], rooted) == Push(Reduce(segs, rooted), seg, rooted)
  {
    assert (segs + [seg])[..|segs|] == segs;
  }

  /** Empty segments and dots mean nothing, wherever they stand. */
  lemma DotsVanish(pre: seq<Bytes>, seg: Bytes, post: seq<Bytes>, rooted: bool)
    requires seg == [] || seg == [DOT]
    ensures Reduce(pre + [seg] + post, rooted) == Reduce(pre + post, rooted)
  {
    ReduceMore(pre, seg, rooted);
    SameKeptSameRest(pre + [seg], pre, post, rooted);
  }

  /** A parent takes back the segment before it. */
  lemma ParentCancels(pre: seq<Bytes>, seg: Bytes, post: seq<Bytes>, rooted: bool)
    requires PlainSegment(seg)
    ensures Reduce(pre + [seg, PARENT] + post, rooted) == Reduce(pre + post, rooted)
  {
    ReduceMore(pre, seg, rooted);
    ReduceMore(pre + [seg], PARENT, rooted);
    assert pre + [seg] + [PARENT] == pre + [seg, PARENT];
    SameKeptSameRest(pre + [seg, PARENT], pre, post, rooted);
  }

  /** The root is its own parent. */
  lemma RootStays(post: seq<Bytes>)
    ensures Reduce([PARENT] + post, true) == Reduce(post, true)
  {
    ReduceMore([], PARENT, true);
    assert [] + [PARENT] == [PARENT] && [] + post == post;
    SameKeptSameRest([PARENT], [], post, true);
  }

  /** No rule applies: no empty segment and no dot, and parents only in front, none below the root. */
  ghost predicate Reduced(segs: seq<Bytes>, rooted: bool) {
    && (forall seg :: seg in segs ==> seg != [] && SLASH !in seg && seg != [DOT] && (rooted ==> seg != PARENT))
    && forall i, j :: 0 <= i < j < |segs| && segs[j] == PARENT ==> segs[i] == PARENT
  }

  /** Segments no rule applies to are kept. */
  lemma {:induction false} ReducedStay(segs: seq<Bytes>, rooted: bool)
    requires Reduced(segs, rooted)
    ensures Reduce(segs, rooted) == segs
  {
    if segs != [] {
      var k := |segs| - 1;
      assert segs == segs[..k] + [segs[k]] && segs[k] in segs;
      assert forall seg :: seg in segs[..k] ==> seg in segs;
      ReducedStay(segs[..k], rooted);
      assert segs[k] == PARENT && k > 0 ==> segs[k - 1] == PARENT;
    }
  }

  /** The rules are applied until none is left. */
  lemma {:induction false} ReduceIsReduced(segs: seq<Bytes>, rooted: bool)
    requires forall seg :: seg in segs ==> SLASH !in seg
    ensures Reduced(Reduce(segs, rooted), rooted)
  {
    if segs != [] {
      var k := |segs| - 1;
      assert forall seg :: seg in segs[..k] ==> seg in segs;
      ReduceIsReduced(segs[..k], rooted);
      PushStaysReduced(Reduce(segs[..k], rooted), segs[k], rooted);
    }
  }

  lemma PushStaysReduced(kept: seq<Bytes>, seg: Bytes, rooted: bool)
    requires Reduced(kept, rooted) && SLASH !in seg
    ensures Reduced(Push(kept, seg, rooted), rooted)
  {
    if seg == PARENT && (kept == [] || kept[|kept| - 1] == PARENT) {
      forall i | 0 <= i < |kept| ensures kept[i] == PARENT {
        if i < |kept| - 1 { assert kept[|kept| - 1] == PARENT; }
      }
    }
  }

  /** Joined again, segments no rule applies to are clean, under the root or not. */
  lemma ReducedIsClean(kept: seq<Bytes>)
    requires kept != [] && Reduced(kept, false)
    ensures CleanPath(JoinAll(kept)) == JoinAll(kept)
  {
    hide Split, JoinAll, Reduce;
    SplitJoin(kept);
    assert kept[0] in kept;
    JoinedFirst(kept);
    ReducedStay(kept, false);
  }

  lemma RootedIsClean(kept: seq<Bytes>)
    requires kept != [] && Reduced(kept, true)
    ensures CleanPath([SLASH] + JoinAll(kept)) == [SLASH] + JoinAll(kept)
  {
    hide Split, JoinAll, Reduce;
    var s := [SLASH] + JoinAll(kept);
    SplitJoin(kept);
    SplitFirst([], JoinAll(kept));
    assert [] + [SLASH] + JoinAll(kept) == s;
    DotsVanish([], [], kept, true);
    assert [] + [[]] + kept == [[]] + kept && [] + kept == kept;
    ReducedStay(kept, true);
  }

  /** Cleaning is done once. */
  lemma CleanIsIdempotent(s: Bytes)
    ensures CleanPath(CleanPath(s)) == CleanPath(s)
  {
    hide Split, Reduce, Reduced;
    var kept := Reduce(Split(s), IsAbs(s));
    ReduceIsReduced(Split(s), IsAbs(s));
    if kept == [] {
      RootAlone();
      DotAlone();
      assert [SLASH] + JoinAll(kept) == [SLASH];
    } else if IsAbs(s) {
      RootedIsClean(kept);
    } else {
      ReducedIsClean(kept);
      FirstKept(kept);
    }
  }

  lemma FirstKept(kept: seq<Bytes>)
    requires kept != [] && Reduced(kept, false)
    ensures JoinAll(kept) != []
  {
    assert kept[0] in kept;
    JoinedFirst(kept);
  }

  lemma JoinedFirst(segs: seq<Bytes>)
    requires segs != [] && segs[0] != [] && SLASH !in segs[0]
    ensures JoinAll(segs) != [] && !IsAbs(JoinAll(segs))
  {
  }

  lemma RootAlone()
    ensures CleanPath([SLASH]) == [SLASH]
  {
    var segs: seq<Bytes> := [[], []];
    assert Split([SLASH]) == segs;
    assert segs[..1] == [[]];
    assert Reduce(segs[..1], true) == [];
  }

  lemma DotAlone()
    ensures CleanPath([DOT]) == [DOT]
  {
    SplitFirst([DOT], []);
    assert Reduce([[DOT]], false) == [];
  }

  // ----- Clean paths

  /** A segment that names a file or directory. */
  predicate PlainSegment(seg: Bytes) {
    seg != [] && SLASH !in seg && seg != [DOT] && seg != PARENT
  }

  /** A clean path below the root it is joined to. */
  predicate CleanRelative(name: Bytes) {
    forall seg :: seg in Split(name) ==> PlainSegment(seg)
  }

  lemma {:induction false} PlainStay(segs: seq<Bytes>)
    requires forall seg :: seg in segs ==> PlainSegment(seg)
    ensures Reduce(segs, false) == segs
  {
    if segs != [] {
      var k := |segs| - 1;
      assert segs == segs[..k] + [segs[k]];
      assert forall seg :: seg in segs[..k] ==> seg in segs;
      PlainStay(segs[..k]);
      assert PlainSegment(segs[k]);
    }
  }

  /** A clean relative path is left as it is. */
  lemma CleanStays(name: Bytes)
    requires CleanRelative(name)
    ensures name != [] && !IsAbs(name) && CleanPath(name) == name
  {
    var segs := Split(name);
    assert segs[0] in segs;
    PlainStay(segs);
    JoinSplit(name);
    FirstSegment(name);
  }

  lemma FirstSegment(s: Bytes)
    ensures IsAbs(s) ==> Split(s)[0] == []
    ensures s == [] ==> Split(s)[0] == []
  {
  }

  /** A relative path that cleaning leaves alone and that does not climb is clean all the way. */
  lemma UnchangedIsClean(name: Bytes)
    requires CleanPath(name) == name && !IsAbs(name) && SLASH in name
    requires !(PARENT + [SLASH] <= name)
    ensures CleanRelative(name)
  {
    var kept := Reduce(Split(name), false);
    ReduceIsReduced(Split(name), false);
    assert kept != [] by { assert SLASH !in [DOT]; }
    assert JoinAll(kept) == name;
    SplitJoin(kept);
    OneSegment(kept);
    FirstIsPrefix(kept);
    assert kept[0] != PARENT;
    forall seg | seg in kept ensures PlainSegment(seg) {
      var j :| 0 <= j < |kept| && kept[j] == seg;
    }
  }

  lemma OneSegment(segs: seq<Bytes>)
    requires segs != [] && SLASH !in segs[0] && SLASH in JoinAll(segs)
    ensures |segs| > 1
  {
  }

  lemma FirstIsPrefix(segs: seq<Bytes>)
    requires |segs| > 1
    ensures segs[0] + [SLASH] <= JoinAll(segs)
  {
  }

  /** A root and a name joined, cleaned and cut are the same again when both are clean. */
  lemma JoinedIsClean(root: Bytes, name: Bytes)
    requires PlainSegment(root) && CleanRelative(name)
    ensures PathJoin(root, name) == root + [SLASH] + name && CleanRelative(root + [SLASH] + name)
  {
    SplitFirst(root, name);
    CleanStays(root + [SLASH] + name);
  }
}
