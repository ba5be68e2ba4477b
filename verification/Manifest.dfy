/** The bundle manifest of internal/seal/seal.go: how it is written, how a scanner reads it back line by line,
    and what checking files against it finds: missing, altered and unlisted ones. SHA-256 is a parameter;
    the scanner stops at a line longer than bufio's token limit. */
module Manifest {
  import opened SetFacts
  import opened Sorting
  import opened Wrappers

  newtype Byte = b: int | 0 <= b < 256

  type Bytes = seq<Byte>

  /** A bundle: contents by path. */
  type Files = map<Bytes, Bytes>

  const NEWLINE: Byte := 10
  const RETURN: Byte := 13
  const SPACE: Byte := 32
  const SHA_SIZE := 32
  const MAX_LINE := 65535

  /** "MANIFEST" and "MANIFEST.sig". */
  const MANIFEST_FILE: Bytes := [77, 65, 78, 73, 70, 69, 83, 84]
  const SIGNATURE_FILE: Bytes := MANIFEST_FILE + [46, 115, 105, 103]

  /** The bytes of an ASCII text. */
  function Ascii(s: string): (r: Bytes)
    requires forall i :: 0 <= i < |s| ==> s[i] as int < 128
    ensures |r| == |s|
  {
    seq(|s|, i requires 0 <= i < |s| => (s[i] as int) as Byte)
  }

  /** The two names a bundle keeps for itself. */
  lemma ReservedNames(name: Bytes)
    ensures Reserved(name) <==> name == Ascii("MANIFEST") || name == Ascii("MANIFEST.sig")
  {
  }

  predicate Reserved(name: Bytes) {
    name == MANIFEST_FILE || name == SIGNATURE_FILE
  }

  /** A hash as the bundle uses it. */
  ghost predicate IsHash(sha: Bytes -> Bytes) {
    forall x :: |sha(x)| == SHA_SIZE
  }

  /** Two inputs the hash does not tell apart. */
  ghost predicate Collision(hash: Bytes -> Bytes, x: Bytes, y: Bytes) {
    x != y && hash(x) == hash(y)
  }

  // ----- Hexadecimal

  function HexDigit(d: int): Byte
    requires 0 <= d < 16
  {
    if d < 10 then (48 + d) as Byte else (87 + d) as Byte
  }

  /** The value of a digit, of either case. */
  function DigitValue(b: Byte): (d: Option<int>)
    ensures d.Some? ==> 0 <= d.value < 16
  {
    if 48 <= b <= 57 then Some(b as int - 48)
    else if 97 <= b <= 102 then Some(b as int - 87)
    else if 65 <= b <= 70 then Some(b as int - 55)
    else None
  }

  function HexEncode(s: Bytes): (r: Bytes)
    ensures |r| == 2 * |s|
    ensures forall i :: 0 <= i < |r| ==> r[i] != SPACE && r[i] != NEWLINE && r[i] != RETURN
  {
    if s == [] then []
    else [HexDigit(s[0] as int / 16), HexDigit(s[0] as int % 16)] + HexEncode(s[1..])
  }

  function HexDecode(s: Bytes): Option<Bytes> {
    if s == [] then Some([])
    else if |s| == 1 then None
    else
      var hi, lo, rest := DigitValue(s[0]), DigitValue(s[1]), HexDecode(s[2..]);
      if hi.None? || lo.None? || rest.None? then None
      else Some([(hi.value * 16 + lo.value) as Byte] + rest.value)
  }

  lemma HexDigitIs(d: int)
    requires 0 <= d < 16
    ensures HexDigit(d) == Ascii("0123456789abcdef")[d]
  {
  }

  /** Two digits a byte, the high one first, in lower case. */
  lemma {:induction false} HexMeans(s: Bytes, i: nat)
    requires i < |s|
    ensures HexEncode(s)[2 * i] == Ascii("0123456789abcdef")[s[i] as int / 16]
    ensures HexEncode(s)[2 * i + 1] == Ascii("0123456789abcdef")[s[i] as int % 16]
  {
    hide HexDigit, Ascii;
    if i > 0 {
      HexMeans(s[1..], i - 1);
    } else {
      HexDigitIs(s[0] as int / 16);
      HexDigitIs(s[0] as int % 16);
    }
  }

  lemma DigitRoundTrip(d: int)
    requires 0 <= d < 16
    ensures DigitValue(HexDigit(d)) == Some(d)
  {
  }

  lemma {:induction false} HexRoundTrip(s: Bytes)
    ensures HexDecode(HexEncode(s)) == Some(s)
  {
    if s != [] {
      var r := HexEncode(s);
      HexRoundTrip(s[1..]);
      DigitRoundTrip(s[0] as int / 16);
      DigitRoundTrip(s[0] as int % 16);
      assert r[2..] == HexEncode(s[1..]);
      assert s == [s[0]] + s[1..];
    }
  }

  // ----- Writing the manifest

  predicate ByteLess(a: Byte, b: Byte) {
    a < b
  }

  predicate BytesLess(a: Bytes, b: Bytes) {
    LexLess(ByteLess, a, b)
  }

  /** Names are in byte order. */
  lemma BytesLessMeans(a: Bytes, b: Bytes)
    ensures BytesLess(a, b) <==>
              || (a <= b && a != b)
              || exists i :: 0 <= i < |a| && i < |b| && a[..i] == b[..i] && a[i] < b[i]
  {
    LexMeans(ByteLess, a, b);
    assert forall i :: LessAt(ByteLess, a, b, i) <==>
                       0 <= i < |a| && i < |b| && a[..i] == b[..i] && a[i] < b[i];
  }

  /** The names a manifest covers, sorted. */
  ghost predicate Covers(names: seq<Bytes>, files: Files) {
    && NoDuplicates(names) && Ascending(BytesLess, names)
    && forall n :: n in names <==> n in files && !Reserved(n)
  }

  /** One line: the digest in hex, two spaces, the path. */
  function Line(sha: Bytes -> Bytes, files: Files, name: Bytes): Bytes
    requires name in files
  {
    HexEncode(sha(files[name])) + [SPACE, SPACE] + name
  }

  ghost function Render(sha: Bytes -> Bytes, files: Files, names: seq<Bytes>): Bytes
    requires forall n :: n in names ==> n in files
  {
    if names == [] then []
    else Line(sha, files, names[0]) + [NEWLINE] + Render(sha, files, names[1..])
  }

  lemma {:induction false} RenderMore(sha: Bytes -> Bytes, files: Files, names: seq<Bytes>, n: Bytes)
    requires (forall x :: x in names ==> x in files) && n in files
    ensures Render(sha, files, names + [n]) == Render(sha, files, names) + Line(sha, files, n) + [NEWLINE]
  {
    hide Line;
    if names == [] {
      assert names + [n] == [n] && [n][1..] == [];
    } else {
      RenderMore(sha, files, names[1..], n);
      assert (names + [n])[1..] == names[1..] + [n];
    }
  }

  method CoveredNames(files: Files) returns (names: seq<Bytes>)
    ensures Covers(names, files)
  {
    var found: seq<Bytes> := [];
    var todo := files.Keys;
    while todo != {}
      invariant todo <= files.Keys && NoDuplicates(found)
      invariant forall n :: n in found <==> n in files && n !in todo && !Reserved(n)
    {
      ghost var some := Member(todo);
      var n :| n in todo;
      todo := todo - {n};
      if Reserved(n) {
        continue;
      }
      found := found + [n];
    }
    names := Sorted(BytesLess, found);
    LexTotal(ByteLess, BytesLess);
    SortedAscending(BytesLess, found);
    Reordered(found, names);
  }

  /** The names covered, and so the manifest, are a function of the files. */
  lemma CoversUnique(a: seq<Bytes>, b: seq<Bytes>, files: Files)
    requires Covers(a, files) && Covers(b, files)
    ensures a == b
  {
    SameValues(a, b);
    LexTotal(ByteLess, BytesLess);
    OneAscending(BytesLess, a, b);
  }

  method WriteManifest(sha: Bytes -> Bytes, files: Files) returns (manifest: Bytes, ghost names: seq<Bytes>)
    ensures Covers(names, files) && manifest == Render(sha, files, names)
    ensures forall other :: Covers(other, files) ==> manifest == Render(sha, files, other)
  {
    var sorted := CoveredNames(files);
    names := sorted;
    manifest := [];
    for i := 0 to |sorted|
      invariant manifest == Render(sha, files, sorted[..i])
    {
      assert sorted[..i + 1] == sorted[..i] + [sorted[i]];
      RenderMore(sha, files, sorted[..i], sorted[i]);
      manifest := manifest + (Line(sha, files, sorted[i]) + [NEWLINE]);
    }
    assert sorted[..|sorted|] == sorted;
    forall other | Covers(other, files) ensures other == names {
      CoversUnique(names, other, files);
    }
  }

  // ----- Scanning lines

  function FirstNewline(s: Bytes): (i: nat)
    ensures i <= |s| && NEWLINE !in s[..i] && (i < |s| ==> s[i] == NEWLINE)
  {
    if s == [] || s[0] == NEWLINE then 0
    else
      var rest := FirstNewline(s[1..]);
      assert s[..rest + 1] == [s[0]] + s[1..][..rest];
      rest + 1
  }

  function DropReturn(line: Bytes): Bytes {
    if line != [] && line[|line| - 1] == RETURN then line[..|line| - 1] else line
  }

  /** What the scanner does next: a line and what follows it, the end, or a line that overflows its buffer. */
  datatype Scan = Next(line: Bytes, rest: Bytes) | End | TooLong

  function ScanLine(s: Bytes): (r: Scan)
    ensures r.Next? ==> |r.rest| < |s|
  {
    if s == [] then End
    else
      var i := FirstNewline(s);
      if i > MAX_LINE then TooLong
      else Next(DropReturn(s[..i]), if i == |s| then [] else s[i + 1..])
  }

  /** Where two spaces first stand, if anywhere. */
  function FirstGap(s: Bytes): (i: Option<nat>)
    ensures i.Some? ==> i.value + 2 <= |s|
  {
    if |s| < 2 then None
    else if s[0] == SPACE && s[1] == SPACE then Some(0)
    else
      var rest := FirstGap(s[1..]);
      if rest.None? then None else Some(rest.value + 1)
  }

  /** The digest and name of a line. */
  function ParseLine(line: Bytes): Option<(Bytes, Bytes)> {
    var i := FirstGap(line);
    if i.None? then None
    else
      var sum, name := line[..i.value], line[i.value + 2..];
      if name == [] || |sum| != 2 * SHA_SIZE then None else Some((sum, name))
  }

  /** The names listed with their digests, none when a line is malformed, repeated or too long. */
  ghost function Parse(manifest: Bytes, listed: Files): Option<Files>
    decreases |manifest|
  {
    match ScanLine(manifest)
    case End => Some(listed)
    case TooLong => None
    case Next(line, rest) =>
      var entry := ParseLine(line);
      if entry.None? || entry.value.1 in listed then None
      else Parse(rest, listed[entry.value.1 := entry.value.0])
  }

  // ----- Checking

  datatype Problem = Missing(name: Bytes) | Altered(name: Bytes) | Unlisted(name: Bytes)

  datatype Check = Malformed | Contents(problems: seq<Problem>) | Clean

  ghost predicate Found(sha: Bytes -> Bytes, listed: Files, files: Files, p: Problem) {
    match p
    case Missing(n) => n in listed && n !in files
    case Altered(n) => n in listed && n in files && HexEncode(sha(files[n])) != listed[n]
    case Unlisted(n) => n in files && n !in listed && !Reserved(n)
  }

  method ReadManifest(manifest: Bytes) returns (listed: Option<Files>)
    ensures listed == Parse(manifest, map[])
  {
    var names: Files := map[];
    var rest := manifest;
    while true
      invariant Parse(rest, names) == Parse(manifest, map[])
      decreases |rest|
    {
      match ScanLine(rest)
      case End => return Some(names);
      case TooLong => return None;
      case Next(line, after) =>
        var entry := ParseLine(line);
        if entry.None? || entry.value.1 in names {
          return None;
        }
        names := names[entry.value.1 := entry.value.0];
        rest := after;
    }
  }

  method ListedProblems(sha: Bytes -> Bytes, listed: Files, files: Files) returns (problems: seq<Problem>)
    ensures forall p :: p in problems <==> !p.Unlisted? && Found(sha, listed, files, p)
    ensures NoDuplicates(problems)
  {
    hide HexEncode;
    problems := [];
    var todo := listed.Keys;
    while todo != {}
      invariant todo <= listed.Keys
      invariant forall p :: p in problems <==> !p.Unlisted? && p.name !in todo && Found(sha, listed, files, p)
      invariant NoDuplicates(problems)
    {
      ghost var some := Member(todo);
      var n :| n in todo;
      todo := todo - {n};
      if n !in files {
        problems := problems + [Missing(n)];
      } else if HexEncode(sha(files[n])) != listed[n] {
        problems := problems + [Altered(n)];
      }
    }
  }

  method UnlistedProblems(listed: Files, files: Files) returns (problems: seq<Problem>)
    ensures forall p :: p in problems <==> p.Unlisted? && p.name in files && p.name !in listed && !Reserved(p.name)
    ensures NoDuplicates(problems)
  {
    hide Reserved;
    problems := [];
    var todo := files.Keys;
    while todo != {}
      invariant todo <= files.Keys
      invariant forall p :: p in problems <==>
                  p.Unlisted? && p.name in files && p.name !in todo && p.name !in listed && !Reserved(p.name)
      invariant NoDuplicates(problems)
    {
      ghost var some := Member(todo);
      var n :| n in todo;
      todo := todo - {n};
      if n !in listed && !Reserved(n) {
        problems := problems + [Unlisted(n)];
      }
    }
  }

  /** The files match the manifest exactly. */
  ghost predicate Matches(sha: Bytes -> Bytes, manifest: Bytes, files: Files) {
    var listed := Parse(manifest, map[]);
    && listed.Some?
    && (forall n :: n in listed.value ==> n in files && HexEncode(sha(files[n])) == listed.value[n])
    && (forall n :: n in files && !Reserved(n) ==> n in listed.value)
  }

  method CheckManifest(sha: Bytes -> Bytes, manifest: Bytes, files: Files) returns (r: Check)
    ensures r == Malformed <==> Parse(manifest, map[]).None?
    ensures r == Clean <==> Matches(sha, manifest, files)
    ensures r.Contents? ==> forall p :: p in r.problems <==> Found(sha, Parse(manifest, map[]).value, files, p)
    ensures r.Contents? ==> NoDuplicates(r.problems)
  {
    hide HexEncode, Reserved, Parse;
    var read := ReadManifest(manifest);
    if read.None? {
      return Malformed;
    }
    var listed := ListedProblems(sha, read.value, files);
    var unlisted := UnlistedProblems(read.value, files);
    var problems := listed + unlisted;
    NoProblems(sha, manifest, read.value, files, problems);
    JoinedOnce(listed, unlisted);
    if |problems| > 0 {
      return Contents(problems);
    }
    r := Clean;
  }

  lemma JoinedOnce(a: seq<Problem>, b: seq<Problem>)
    requires NoDuplicates(a) && NoDuplicates(b)
    requires (forall p :: p in a ==> !p.Unlisted?) && (forall p :: p in b ==> p.Unlisted?)
    ensures NoDuplicates(a + b)
  {
    forall i, j | 0 <= i < j < |a + b| ensures (a + b)[i] != (a + b)[j] {
      if i < |a| && j >= |a| {
        assert a[i] in a && b[j - |a|] in b;
      }
    }
  }

  lemma NoProblems(sha: Bytes -> Bytes, manifest: Bytes, listed: Files, files: Files, problems: seq<Problem>)
    requires Parse(manifest, map[]) == Some(listed)
    requires forall p :: p in problems <==> Found(sha, listed, files, p)
    ensures problems == [] <==> Matches(sha, manifest, files)
  {
    hide HexEncode, Reserved, Parse;
    if problems == [] {
      forall n | n in listed ensures n in files && HexEncode(sha(files[n])) == listed[n] {
        assert !Found(sha, listed, files, Missing(n)) && !Found(sha, listed, files, Altered(n));
      }
      forall n | n in files && !Reserved(n) ensures n in listed {
        assert !Found(sha, listed, files, Unlisted(n));
      }
    } else {
      assert problems[0] in problems;
    }
  }
}
