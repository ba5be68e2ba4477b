/** The layout of a bundle archive: WriteBundle and ReadBundle of internal/seal/bundle.go, over a tar as its
    list of entries. */
module BundleArchive {
  import opened BundlePaths
  import opened Manifest
  import opened SetFacts
  import opened Sorting
  import opened Wrappers

  datatype Kind = Regular | Directory | Other

  datatype Entry = Entry(name: Bytes, kind: Kind, data: Bytes)

  datatype Reading = Opened(root: Bytes, files: Files) | Refused

  // ----- What an archive holds

  /** A path that is its own cleaning, and neither absolute nor climbing. */
  predicate Safe(name: Bytes) {
    CleanPath(name) == name && !IsAbs(name) && !(PARENT + [SLASH] <= name) && name != PARENT
  }

  /** name lies under the directory root. */
  predicate InRoot(root: Bytes, name: Bytes) {
    SLASH !in root && root + [SLASH] <= name
  }

  /** Entry i is the regular file at rel. */
  ghost predicate Gives(archive: seq<Entry>, i: int, root: Bytes, rel: Bytes) {
    0 <= i < |archive| && archive[i].kind == Regular && archive[i].name == root + [SLASH] + rel
  }

  ghost predicate HasFile(archive: seq<Entry>) {
    exists i :: 0 <= i < |archive| && archive[i].kind == Regular
  }

  /** Every entry is a directory or a regular file at a safe path of its own under the root, and the files are those. */
  ghost predicate Laid(archive: seq<Entry>, root: Bytes, files: Files) {
    && (forall i :: 0 <= i < |archive| ==> archive[i].kind != Other)
    && (forall i :: 0 <= i < |archive| && archive[i].kind == Regular ==>
          Safe(archive[i].name) && InRoot(root, archive[i].name))
    && (forall i, j :: 0 <= i < j < |archive| && archive[i].kind == Regular == archive[j].kind ==>
          archive[i].name != archive[j].name)
    && (forall rel :: rel in files <==> exists i :: Gives(archive, i, root, rel))
    && (forall i, rel :: Gives(archive, i, root, rel) ==> files[rel] == archive[i].data)
  }

  /** The archive is a bundle of these files under this root. */
  ghost predicate Holds(archive: seq<Entry>, root: Bytes, files: Files) {
    HasFile(archive) && Laid(archive, root, files)
  }

  /** An archive holds one bundle at most. */
  lemma HoldsUnique(archive: seq<Entry>, root: Bytes, files: Files, root': Bytes, files': Files)
    requires Holds(archive, root, files) && Holds(archive, root', files')
    ensures root == root' && files == files'
  {
    hide Safe;
    var i :| 0 <= i < |archive| && archive[i].kind == Regular;
    CutUnique(archive[i].name, root, root');
    forall rel ensures rel in files <==> rel in files' {
    }
    forall rel | rel in files ensures files[rel] == files'[rel] {
      var k :| Gives(archive, k, root, rel);
    }
  }

  lemma CutUnique(name: Bytes, root: Bytes, root': Bytes)
    requires InRoot(root, name) && InRoot(root', name)
    ensures root == root'
  {
    assert name[|root|] == SLASH == name[|root'|];
    assert root == name[..|root|] && root' == name[..|root'|];
    assert forall i :: 0 <= i < |root| ==> name[i] in root;
    assert forall i :: 0 <= i < |root'| ==> name[i] in root';
  }

  /** Nothing in an archive that is read escapes the files: the root is one clean segment, every path under it is clean,
      and each regular entry is the only one at its path. */
  lemma NothingHides(archive: seq<Entry>, root: Bytes, files: Files)
    requires Holds(archive, root, files)
    ensures PlainSegment(root) && forall rel :: rel in files ==> CleanRelative(rel)
    ensures forall i :: 0 <= i < |archive| && archive[i].kind == Regular ==>
              var rel := archive[i].name[|root| + 1..];
              rel in files && files[rel] == archive[i].data && forall j :: Gives(archive, j, root, rel) ==> j == i
  {
    hide Safe;
    var k :| 0 <= k < |archive| && archive[k].kind == Regular;
    SafeIsClean(archive[k].name, root);
    forall rel | rel in files ensures CleanRelative(rel) {
      var i :| Gives(archive, i, root, rel);
      SafeIsClean(archive[i].name, root);
      assert archive[i].name[|root| + 1..] == rel;
    }
    forall i | 0 <= i < |archive| && archive[i].kind == Regular
      ensures Gives(archive, i, root, archive[i].name[|root| + 1..])
    {
    }
  }

  lemma SafeIsClean(name: Bytes, root: Bytes)
    requires Safe(name) && InRoot(root, name)
    ensures PlainSegment(root) && CleanRelative(name[|root| + 1..])
  {
    var rel := name[|root| + 1..];
    assert name == root + [SLASH] + rel;
    UnchangedIsClean(name);
    SplitFirst(root, rel);
    assert root in Split(name) && forall seg :: seg in Split(rel) ==> seg in Split(name);
  }

  // ----- Reading

  /** strings.Cut at the first slash: what stands before it, when there is one. */
  function Top(name: Bytes): (top: Option<Bytes>)
    ensures top.Some? ==> InRoot(top.value, name)
    ensures top.None? <==> SLASH !in name
  {
    if name == [] then None
    else if name[0] == SLASH then Some([])
    else
      assert name == [name[0]] + name[1..];
      match Top(name[1..])
      case None => None
      case Some(top) => Some([name[0]] + top)
  }

  /** What is known after some entries: no root before the first regular file. */
  ghost predicate SoFar(archive: seq<Entry>, root: Bytes, files: Files) {
    if root == [] then files == map[] && forall i :: 0 <= i < |archive| ==> archive[i].kind == Directory
    else Holds(archive, root, files)
  }

  lemma DirectoryRead(archive: seq<Entry>, i: nat, root: Bytes, files: Files)
    requires i < |archive| && SoFar(archive[..i], root, files) && archive[i].kind == Directory
    ensures SoFar(archive[..i + 1], root, files)
  {
    hide Safe;
    var was, now := archive[..i], archive[..i + 1];
    assert forall k :: 0 <= k < i ==> now[k] == was[k];
    assert forall k, rel :: Gives(now, k, root, rel) <==> Gives(was, k, root, rel);
  }

  /** What one more regular file gives. */
  lemma GivesMore(archive: seq<Entry>, i: nat, top: Bytes, rel: Bytes)
    requires i < |archive| && archive[i].kind == Regular && archive[i].name == top + [SLASH] + rel
    ensures forall k, r ::
              Gives(archive[..i + 1], k, top, r) <==> Gives(archive[..i], k, top, r) || (k == i && r == rel)
  {
    var was, now := archive[..i], archive[..i + 1];
    assert forall k :: 0 <= k < i ==> now[k] == was[k];
    forall k, r ensures Gives(now, k, top, r) <==> Gives(was, k, top, r) || (k == i && r == rel) {
      if k == i && archive[i].name == top + [SLASH] + r {
        assert r == archive[i].name[|top| + 1..] == rel;
      }
    }
  }

  lemma FileRead(archive: seq<Entry>, i: nat, root: Bytes, files: Files, top: Bytes, rel: Bytes)
    requires i < |archive| && SoFar(archive[..i], root, files) && archive[i].kind == Regular
    requires Safe(archive[i].name) && SLASH !in top && archive[i].name == top + [SLASH] + rel
    requires (root == [] || root == top) && rel !in files
    ensures SoFar(archive[..i + 1], top, files[rel := archive[i].data])
  {
    assert top != [];
    hide Safe, Gives;
    var now := archive[..i + 1];
    NoFilesYet(archive[..i], root, files, top);
    EntriesMore(archive, i, files, top, rel);
    FilesMore(archive, i, files, top, rel);
    assert now[i].kind == Regular;
  }

  lemma EntriesMore(archive: seq<Entry>, i: nat, files: Files, top: Bytes, rel: Bytes)
    requires i < |archive| && Laid(archive[..i], top, files) && rel !in files && SLASH !in top
    requires archive[i].kind == Regular && Safe(archive[i].name) && archive[i].name == top + [SLASH] + rel
    ensures var now := archive[..i + 1];
            && (forall k :: 0 <= k < |now| ==> now[k].kind != Other)
            && (forall k :: 0 <= k < |now| && now[k].kind == Regular ==> Safe(now[k].name) && InRoot(top, now[k].name))
            && forall k, l :: 0 <= k < l < |now| && now[k].kind == Regular == now[l].kind ==> now[k].name != now[l].name
  {
    hide Safe, Gives;
    var was, now := archive[..i], archive[..i + 1];
    assert now[i] == archive[i] && forall k :: 0 <= k < i ==> now[k] == was[k];
    assert archive[i].name[|top| + 1..] == rel;
    forall k | 0 <= k < i && was[k].kind == Regular ensures was[k].name != archive[i].name {
      GivesItself(was, k, top);
    }
  }

  lemma GivesItself(archive: seq<Entry>, k: nat, root: Bytes)
    requires k < |archive| && archive[k].kind == Regular
    ensures InRoot(root, archive[k].name) ==> Gives(archive, k, root, archive[k].name[|root| + 1..])
  {
  }

  /** What is known after some entries, as of any root when there was no file. */
  lemma NoFilesYet(archive: seq<Entry>, root: Bytes, files: Files, top: Bytes)
    requires SoFar(archive, root, files) && SLASH !in top && (root == [] || root == top)
    ensures Laid(archive, top, files)
  {
    hide Safe;
  }

  lemma FilesMore(archive: seq<Entry>, i: nat, files: Files, top: Bytes, rel: Bytes)
    requires i < |archive| && Laid(archive[..i], top, files) && rel !in files
    requires archive[i].kind == Regular && archive[i].name == top + [SLASH] + rel
    ensures var files', now := files[rel := archive[i].data], archive[..i + 1];
            && (forall r :: r in files' <==> exists k :: Gives(now, k, top, r))
            && forall k, r :: Gives(now, k, top, r) ==> files'[r] == now[k].data
  {
    var files', was, now := files[rel := archive[i].data], archive[..i], archive[..i + 1];
    GivesMore(archive, i, top, rel);
    assert forall k, r :: Gives(was, k, top, r) ==> 0 <= k < i && now[k] == was[k];
    hide Safe, Gives;
    assert Gives(now, i, top, rel) && now[i] == archive[i];
    forall r ensures r in files' <==> exists k :: Gives(now, k, top, r) {
      if r in files {
        var k :| Gives(was, k, top, r);
        assert Gives(now, k, top, r);
      }
      if k :| Gives(now, k, top, r) {
        assert Gives(was, k, top, r) || r == rel;
      }
    }
    forall k, r | Gives(now, k, top, r) ensures files'[r] == now[k].data {
      if Gives(was, k, top, r) { assert files[r] == was[k].data; }
    }
  }

  /** An entry no bundle has. */
  lemma NotLaid(archive: seq<Entry>, i: nat)
    requires i < |archive| && archive[i].kind != Directory
    requires archive[i].kind != Regular || !Safe(archive[i].name) || SLASH !in archive[i].name
    ensures forall r, fs :: !Holds(archive, r, fs)
  {
    hide Safe;
    forall r, fs ensures !Holds(archive, r, fs) {
      if archive[i].kind == Regular && InRoot(r, archive[i].name) {
        assert archive[i].name[|r|] == SLASH;
      }
    }
  }

  /** A second root: the archive holds no bundle. */
  lemma TwoRoots(archive: seq<Entry>, i: nat, root: Bytes, files: Files, top: Bytes)
    requires i < |archive| && SoFar(archive[..i], root, files) && root != []
    requires archive[i].kind == Regular && InRoot(top, archive[i].name) && top != root
    ensures forall r, fs :: !Holds(archive, r, fs)
  {
    hide Safe;
    var k :| 0 <= k < i && archive[..i][k].kind == Regular;
    assert archive[..i][k] == archive[k];
    forall r, fs ensures !Holds(archive, r, fs) {
      if Holds(archive, r, fs) {
        CutUnique(archive[k].name, r, root);
        CutUnique(archive[i].name, r, top);
      }
    }
  }

  /** A path a second time: the archive holds no bundle. */
  lemma TwoFiles(archive: seq<Entry>, i: nat, root: Bytes, files: Files, rel: Bytes)
    requires i < |archive| && SoFar(archive[..i], root, files) && rel in files
    requires archive[i].kind == Regular && archive[i].name == root + [SLASH] + rel
    ensures forall r, fs :: !Holds(archive, r, fs)
  {
    hide Safe;
    var k :| Gives(archive[..i], k, root, rel);
    assert archive[..i][k] == archive[k];
  }

  /** Reads a bundle: what it returns is what the archive holds, and it refuses exactly what holds no bundle. */
  method ReadBundle(archive: seq<Entry>) returns (r: Reading)
    ensures r.Opened? ==> Holds(archive, r.root, r.files)
    ensures r.Refused? ==> forall root, files :: !Holds(archive, root, files)
  {
    hide CleanPath, Safe;
    var root: Bytes, files: Files := [], map[];
    for i := 0 to |archive|
      invariant SoFar(archive[..i], root, files)
    {
      var e := archive[i];
      if e.kind == Directory {
        DirectoryRead(archive, i, root, files);
        continue;
      }
      if e.kind != Regular || !Safe(e.name) {
        NotLaid(archive, i);
        return Refused;
      }
      var top := Top(e.name);
      if top.None? {
        NotLaid(archive, i);
        return Refused;
      }
      if root != [] && top.value != root {
        TwoRoots(archive, i, root, files, top.value);
        return Refused;
      }
      var rel := e.name[|top.value| + 1..];
      assert e.name == top.value + [SLASH] + rel;
      if rel in files {
        TwoFiles(archive, i, root, files, rel);
        return Refused;
      }
      FileRead(archive, i, root, files, top.value, rel);
      root, files := top.value, files[rel := e.data];
    }
    assert archive[..|archive|] == archive;
    if root == [] {
      return Refused;
    }
    r := Opened(root, files);
  }

  // ----- Writing

  /** The names of all files, sorted. */
  ghost predicate Lists(names: seq<Bytes>, files: Files) {
    NoDuplicates(names) && Ascending(BytesLess, names) && forall n :: n in names <==> n in files
  }

  /** One regular entry per file under the root, in path order. */
  ghost predicate Written(archive: seq<Entry>, root: Bytes, files: Files, names: seq<Bytes>) {
    && Lists(names, files) && |archive| == |names|
    && forall i :: 0 <= i < |names| ==> archive[i] == Entry(PathJoin(root, names[i]), Regular, files[names[i]])
  }

  method SortedNames(files: Files) returns (names: seq<Bytes>)
    ensures Lists(names, files)
  {
    var found: seq<Bytes> := [];
    var todo := files.Keys;
    while todo != {}
      invariant todo <= files.Keys && NoDuplicates(found)
      invariant forall n :: n in found <==> n in files && n !in todo
    {
      ghost var some := Member(todo);
      var n :| n in todo;
      todo := todo - {n};
      found := found + [n];
    }
    names := Sorted(BytesLess, found);
    LexTotal(ByteLess, BytesLess);
    SortedAscending(BytesLess, found);
    Reordered(found, names);
  }

  method WriteBundle(root: Bytes, files: Files) returns (archive: seq<Entry>, ghost names: seq<Bytes>)
    ensures Written(archive, root, files, names)
  {
    hide PathJoin;
    var sorted := SortedNames(files);
    names := sorted;
    archive := [];
    for i := 0 to |sorted|
      invariant |archive| == i
      invariant forall k :: 0 <= k < i ==> archive[k] == Entry(PathJoin(root, sorted[k]), Regular, files[sorted[k]])
    {
      archive := archive + [Entry(PathJoin(root, sorted[i]), Regular, files[sorted[i]])];
    }
  }

  // ----- The round trip

  /** What WriteBundle writes is a bundle of the files under the root exactly when there is a file, the root is one
      clean segment, and every name is a clean relative path. */
  lemma WrittenHolds(archive: seq<Entry>, root: Bytes, files: Files, names: seq<Bytes>)
    requires Written(archive, root, files, names)
    ensures Holds(archive, root, files) <==>
            files != map[] && PlainSegment(root) && forall n :: n in files ==> CleanRelative(n)
  {
    hide PathJoin, CleanRelative, PlainSegment, Safe, Ascending;
    if Holds(archive, root, files) {
      NothingHides(archive, root, files);
      assert names[0] in names;
    }
    if files != map[] && PlainSegment(root) && forall n :: n in files ==> CleanRelative(n) {
      CleanIsLaid(archive, root, files, names);
    }
  }

  lemma CleanIsLaid(archive: seq<Entry>, root: Bytes, files: Files, names: seq<Bytes>)
    requires Written(archive, root, files, names)
    requires files != map[] && PlainSegment(root) && forall n :: n in files ==> CleanRelative(n)
    ensures Holds(archive, root, files)
  {
    hide PathJoin, CleanRelative, Safe, Ascending;
    forall i | 0 <= i < |names|
      ensures archive[i].name == root + [SLASH] + names[i] && Safe(archive[i].name)
    {
      assert names[i] in names;
      JoinedIsSafe(root, names[i]);
    }
    forall i, rel ensures Gives(archive, i, root, rel) <==> 0 <= i < |names| && rel == names[i] {
      if 0 <= i < |names| && archive[i].name == root + [SLASH] + rel {
        assert rel == archive[i].name[|root| + 1..] == names[i];
      }
    }
    forall i, j | 0 <= i < j < |names| ensures archive[i].name != archive[j].name {
      assert archive[i].name[|root| + 1..] == names[i] && archive[j].name[|root| + 1..] == names[j];
    }
    forall n ensures n in files <==> exists i :: Gives(archive, i, root, n) {
      if n in files {
        var i :| 0 <= i < |names| && names[i] == n;
        assert Gives(archive, i, root, n);
      }
    }
    forall i, rel | Gives(archive, i, root, rel) ensures files[rel] == archive[i].data {
      assert rel == names[i];
    }
    var n :| n in files;
    var i :| 0 <= i < |names| && names[i] == n;
    assert archive[i].kind == Regular;
  }

  lemma JoinedIsSafe(root: Bytes, name: Bytes)
    requires PlainSegment(root) && CleanRelative(name)
    ensures PathJoin(root, name) == root + [SLASH] + name && Safe(root + [SLASH] + name)
  {
    hide PathJoin, CleanPath;
    var all := root + [SLASH] + name;
    JoinedIsClean(root, name);
    CleanStays(all);
    assert all[|root|] == SLASH && all[..|root|] == root;
    if PARENT + [SLASH] <= all { CutUnique(all, root, PARENT); }
  }

  /** ReadBundle gives back what WriteBundle was given exactly then. */
  method WriteThenRead(root: Bytes, files: Files) returns (r: Reading)
    ensures r == Opened(root, files) <==>
            files != map[] && PlainSegment(root) && forall n :: n in files ==> CleanRelative(n)
  {
    hide Holds, Written, PlainSegment, CleanRelative;
    var archive, names := WriteBundle(root, files);
    r := ReadBundle(archive);
    WrittenHolds(archive, root, files, names);
    if r.Opened? && Holds(archive, root, files) {
      HoldsUnique(archive, root, files, r.root, r.files);
    }
  }
}
