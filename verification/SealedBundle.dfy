/** Sealing and verifying a bundle: seal.go and bundle.go of internal/seal, with SHA-256 and
    HMAC as parameters. */
module SealedBundle {
  import opened Manifest
  import opened Wrappers
  import opened SetFacts

  /** "sha256=". */
  const PREFIX: Bytes := [115, 104, 97, 50, 53, 54, 61]

  // ----- Signatures

  predicate Blank(b: Byte) {
    9 <= b <= 13 || b == SPACE
  }

  function TrimLeft(s: Bytes): Bytes {
    if s != [] && Blank(s[0]) then TrimLeft(s[1..]) else s
  }

  function TrimRight(s: Bytes): Bytes {
    if s != [] && Blank(s[|s| - 1]) then TrimRight(s[..|s| - 1]) else s
  }

  function Sign(hmac: (Bytes, Bytes) -> Bytes, data: Bytes, key: Bytes): Option<Bytes> {
    if key == [] then None else Some(PREFIX + HexEncode(hmac(key, data)))
  }

  function DecodeSignature(signature: Bytes): Option<Bytes> {
    var s := TrimRight(TrimLeft(signature));
    if !(PREFIX <= s) then None
    else
      var raw := HexDecode(s[|PREFIX|..]);
      if raw.Some? && |raw.value| == SHA_SIZE then raw else None
  }

  datatype Verdict = Sealed | Unsealed | MissingKey | MalformedSignature | Mismatch | BadContents(check: Check)

  function Verify(hmac: (Bytes, Bytes) -> Bytes, data: Bytes, signature: Bytes, key: Bytes): Verdict {
    if key == [] then MissingKey
    else
      var provided := DecodeSignature(signature);
      if provided.None? then MalformedSignature
      else if hmac(key, data) != provided.value then Mismatch
      else Sealed
  }

  /** Tab, line feed, vertical tab, form feed, carriage return and space. */
  lemma BlankMeans(b: Byte)
    ensures Blank(b) <==> b in [9, 10, 11, 12, 13, 32]
  {
  }

  ghost predicate AllBlank(s: Bytes) {
    forall b :: b in s ==> Blank(b)
  }

  lemma {:induction false} LeftTrimmed(s: Bytes) returns (left: Bytes)
    ensures s == left + TrimLeft(s) && AllBlank(left)
  {
    left := [];
    if s != [] && Blank(s[0]) {
      left := LeftTrimmed(s[1..]);
      left := [s[0]] + left;
      assert s == [s[0]] + s[1..];
    }
  }

  lemma {:induction false} RightTrimmed(s: Bytes) returns (right: Bytes)
    ensures s == TrimRight(s) + right && AllBlank(right)
  {
    right := [];
    if s != [] && Blank(s[|s| - 1]) {
      right := RightTrimmed(s[..|s| - 1]);
      right := right + [s[|s| - 1]];
      assert s == s[..|s| - 1] + [s[|s| - 1]];
    }
  }

  lemma {:induction false} TrimsLeft(left: Bytes, rest: Bytes)
    requires AllBlank(left) && rest != [] && !Blank(rest[0])
    ensures TrimLeft(left + rest) == rest
  {
    if left == [] {
      assert left + rest == rest;
    } else {
      assert (left + rest)[1..] == left[1..] + rest;
      TrimsLeft(left[1..], rest);
    }
  }

  lemma {:induction false} TrimsRight(rest: Bytes, right: Bytes)
    requires AllBlank(right) && rest != [] && !Blank(rest[|rest| - 1])
    ensures TrimRight(rest + right) == rest
  {
    if right == [] {
      assert rest + right == rest;
    } else {
      assert (rest + right)[..|rest + right| - 1] == rest + right[..|right| - 1];
      TrimsRight(rest, right[..|right| - 1]);
    }
  }

  lemma {:induction false} HexEndsInDigit(hex: Bytes)
    requires HexDecode(hex).Some? && hex != []
    ensures !Blank(hex[|hex| - 1])
  {
    if |hex| > 2 { HexEndsInDigit(hex[2..]); }
  }

  /** The signature is the text between blanks, in hex behind the scheme's name. */
  ghost predicate Signs(signature: Bytes, left: Bytes, hex: Bytes, right: Bytes, digest: Bytes) {
    && signature == left + Ascii("sha256=") + hex + right && AllBlank(left) && AllBlank(right)
    && HexDecode(hex) == Some(digest) && |digest| == 32
  }

  /** A signature decodes to a digest exactly when it is the digest's 32 bytes in hex of either case, behind the name
      of the scheme, with nothing else but white space around it. */
  lemma DecodeMeans(signature: Bytes, digest: Bytes)
    ensures DecodeSignature(signature) == Some(digest) <==>
            exists left, hex, right :: Signs(signature, left, hex, right, digest)
  {
    hide HexDecode;
    assert PREFIX == Ascii("sha256=");
    if DecodeSignature(signature) == Some(digest) {
      var left := LeftTrimmed(signature);
      var right := RightTrimmed(TrimLeft(signature));
      var body := TrimRight(TrimLeft(signature));
      assert body == PREFIX + body[|PREFIX|..];
      assert Signs(signature, left, body[|PREFIX|..], right, digest);
    }
    if left, hex, right :| Signs(signature, left, hex, right, digest) {
      HexLength(hex, digest);
      HexEndsInDigit(hex);
      var body := PREFIX + hex;
      assert signature == left + (body + right);
      assert (body + right)[0] == 115 && body[|body| - 1] == hex[|hex| - 1];
      TrimsLeft(left, body + right);
      TrimsRight(body, right);
      assert body[|PREFIX|..] == hex;
    }
  }

  lemma HexLength(hex: Bytes, digest: Bytes)
    requires HexDecode(hex) == Some(digest) && digest != []
    ensures hex != []
  {
  }

  // ----- Bundles

  class FileSet {
    var files: Files

    constructor (entries: Files)
      ensures files == entries
    {
      files := entries;
    }
  }

  /** The files with their manifest and its signature. */
  ghost function WithSeal(sha: Bytes -> Bytes, hmac: (Bytes, Bytes) -> Bytes, files: Files, names: seq<Bytes>,
                          key: Bytes): Files
    requires key != [] && Covers(names, files)
  {
    var manifest := Render(sha, files, names);
    files[MANIFEST_FILE := manifest][SIGNATURE_FILE := PREFIX + HexEncode(hmac(key, manifest)) + [NEWLINE]]
  }

  /** Adds the manifest and its signature to the caller's files; without a key it changes nothing. */
  method Bundle(sha: Bytes -> Bytes, hmac: (Bytes, Bytes) -> Bytes, bundle: FileSet, key: Bytes)
    returns (signature: Option<Bytes>, ghost names: seq<Bytes>)
    modifies bundle`files
    ensures Covers(names, old(bundle.files))
    ensures signature.None? <==> key == []
    ensures key == [] ==> bundle.files == old(bundle.files)
    ensures key != [] ==> bundle.files == WithSeal(sha, hmac, old(bundle.files), names, key)
  {
    var manifest;
    manifest, names := WriteManifest(sha, bundle.files);
    signature := Sign(hmac, manifest, key);
    if signature.None? {
      return;
    }
    bundle.files := bundle.files[MANIFEST_FILE := manifest][SIGNATURE_FILE := signature.value + [NEWLINE]];
  }

  /** The signature is good under the key and the files match the manifest. */
  ghost predicate Accepts(sha: Bytes -> Bytes, hmac: (Bytes, Bytes) -> Bytes, files: Files, key: Bytes) {
    && MANIFEST_FILE in files && SIGNATURE_FILE in files
    && Verify(hmac, files[MANIFEST_FILE], files[SIGNATURE_FILE], key) == Verdict.Sealed
    && Matches(sha, files[MANIFEST_FILE], files)
  }

  method VerifyBundle(sha: Bytes -> Bytes, hmac: (Bytes, Bytes) -> Bytes, files: Files, key: Bytes)
    returns (verdict: Verdict)
    ensures verdict == Verdict.Sealed <==> Accepts(sha, hmac, files, key)
    ensures verdict == Unsealed <==> MANIFEST_FILE !in files || SIGNATURE_FILE !in files
    ensures MANIFEST_FILE in files && SIGNATURE_FILE in files ==>
              var provided := DecodeSignature(files[SIGNATURE_FILE]);
              && (verdict == MissingKey <==> key == [])
              && (verdict == MalformedSignature <==> key != [] && provided.None?)
              && (verdict == Mismatch <==>
                    key != [] && provided.Some? && provided.value != hmac(key, files[MANIFEST_FILE]))
              && (verdict.BadContents? <==>
                    key != [] && provided == Some(hmac(key, files[MANIFEST_FILE]))
                    && !Matches(sha, files[MANIFEST_FILE], files))
  {
    hide DecodeSignature, Matches;
    if MANIFEST_FILE !in files || SIGNATURE_FILE !in files {
      return Unsealed;
    }
    var signed := Verify(hmac, files[MANIFEST_FILE], files[SIGNATURE_FILE], key);
    if signed != Verdict.Sealed {
      return signed;
    }
    var check := CheckManifest(sha, files[MANIFEST_FILE], files);
    verdict := if check == Clean then Verdict.Sealed else BadContents(check);
  }

  // ----- A written line is read back

  /** A name one line can hold: not empty, no line break in it, and short enough for the scanner. */
  predicate Fits(name: Bytes) {
    name != [] && NEWLINE !in name && |name| <= 65469
  }

  predicate EndsInReturn(name: Bytes) {
    name != [] && name[|name| - 1] == RETURN
  }

  /** A name a manifest can list: it fits its line, and does not end in the carriage return a scanner drops. */
  predicate Plain(name: Bytes) {
    Fits(name) && !EndsInReturn(name)
  }

  lemma {:induction false} NewlineAfter(a: Bytes, rest: Bytes)
    requires NEWLINE !in a
    ensures FirstNewline(a + [NEWLINE] + rest) == |a|
  {
    if a == [] {
      assert (a + [NEWLINE] + rest)[0] == NEWLINE;
    } else {
      NewlineAfter(a[1..], rest);
      assert (a + [NEWLINE] + rest)[1..] == a[1..] + [NEWLINE] + rest;
    }
  }

  lemma {:induction false} GapAfter(h: Bytes, name: Bytes)
    requires SPACE !in h
    ensures FirstGap(h + [SPACE, SPACE] + name) == Some(|h|)
  {
    var s := h + [SPACE, SPACE] + name;
    if h == [] {
      assert s[0] == SPACE && s[1] == SPACE;
    } else {
      GapAfter(h[1..], name);
      assert s[1..] == h[1..] + [SPACE, SPACE] + name;
      assert s[0] == h[0] && h[0] in h;
    }
  }

  /** The scanner reads a line that fits back, but for a final carriage return. */
  lemma LineScans(line: Bytes, rest: Bytes)
    requires NEWLINE !in line && |line| <= MAX_LINE
    ensures ScanLine(line + [NEWLINE] + rest) == Next(DropReturn(line), rest)
  {
    NewlineAfter(line, rest);
    var s := line + [NEWLINE] + rest;
    assert s[..|line|] == line && s[|line| + 1..] == rest;
  }

  /** A line with a name on it parses to that name and its digest. */
  lemma LineParses(digest: Bytes, name: Bytes)
    requires |digest| == 2 * SHA_SIZE && SPACE !in digest
    ensures ParseLine(digest + [SPACE, SPACE] + name) == if name == [] then None else Some((digest, name))
  {
    GapAfter(digest, name);
    var line := digest + [SPACE, SPACE] + name;
    assert line[..|digest|] == digest && line[|digest| + 2..] == name;
  }

  /** What the first line of a manifest reads as. */
  lemma FirstLine(sha: Bytes -> Bytes, files: Files, name: Bytes, rest: Bytes)
    requires IsHash(sha) && name in files && Fits(name)
    ensures var digest := HexEncode(sha(files[name]));
            var dropped := DropReturn(name);
            var manifest := Line(sha, files, name) + [NEWLINE] + rest;
            && ScanLine(manifest) == Next(digest + [SPACE, SPACE] + dropped, rest)
            && ParseLine(digest + [SPACE, SPACE] + dropped) == if dropped == [] then None else Some((digest, dropped))
  {
    var digest := HexEncode(sha(files[name]));
    var line := Line(sha, files, name);
    assert |digest| == 2 * SHA_SIZE;
    LineScans(line, rest);
    assert DropReturn(line) == digest + [SPACE, SPACE] + DropReturn(name);
    LineParses(digest, DropReturn(name));
  }

  // ----- A manifest reads back as what it lists

  /** The names added to listed are these, each with its digest. */
  ghost predicate Reads(sha: Bytes -> Bytes, files: Files, names: seq<Bytes>, listed: Files, read: Files)
    requires forall n :: n in names ==> n in files
  {
    && (forall n :: n in read <==> n in listed || n in names)
    && (forall n :: n in names ==> read[n] == HexEncode(sha(files[n])))
    && (forall n :: n in listed && n !in names ==> read[n] == listed[n])
  }

  lemma ReadsOneMore(sha: Bytes -> Bytes, files: Files, n: Bytes, rest: seq<Bytes>, listed: Files, read: Files)
    requires n in files && n !in listed && n !in rest && forall x :: x in rest ==> x in files
    requires Reads(sha, files, rest, listed[n := HexEncode(sha(files[n]))], read)
    ensures Reads(sha, files, [n] + rest, listed, read)
  {
    hide HexEncode;
  }

  lemma {:induction false} RenderParses(sha: Bytes -> Bytes, files: Files, names: seq<Bytes>, listed: Files)
    requires IsHash(sha) && NoDuplicates(names) && forall n :: n in names ==> n in files && Plain(n) && n !in listed
    ensures var read := Parse(Render(sha, files, names), listed);
            read.Some? && Reads(sha, files, names, listed, read.value)
  {
    if names != [] {
      hide Line, HexEncode, ScanLine, ParseLine, Reads, IsHash, Plain;
      var n, tail := names[0], Render(sha, files, names[1..]);
      assert names == [n] + names[1..];
      PlainFits(n);
      FirstLine(sha, files, n, tail);
      var listed' := listed[n := HexEncode(sha(files[n]))];
      RenderParses(sha, files, names[1..], listed');
      assert Parse(Render(sha, files, names), listed) == Parse(tail, listed');
      ReadsOneMore(sha, files, n, names[1..], listed, Parse(tail, listed').value);
    } else {
      NoneRead(sha, files, listed);
    }
  }

  lemma PlainFits(name: Bytes)
    requires Plain(name)
    ensures Fits(name) && DropReturn(name) == name != []
  {
  }

  lemma NoneRead(sha: Bytes -> Bytes, files: Files, listed: Files)
    ensures Reads(sha, files, [], listed, listed)
  {
  }

  /** The bundles agree on every name but the two the seal adds. */
  ghost predicate Agree(f: Files, g: Files) {
    forall n :: !Reserved(n) ==> (n in f <==> n in g) && (n in f ==> f[n] == g[n])
  }

  /** The bundles have the same digest under every covered name. */
  ghost predicate SameDigests(sha: Bytes -> Bytes, f: Files, g: Files) {
    forall n :: !Reserved(n) ==> (n in f <==> n in g) && (n in f ==> sha(f[n]) == sha(g[n]))
  }

  /** Two contents of one name that the hash does not tell apart. */
  ghost predicate Collide(sha: Bytes -> Bytes, f: Files, g: Files) {
    exists n :: n in f && n in g && Collision(sha, f[n], g[n])
  }

  lemma HexInjective(a: Bytes, b: Bytes)
    requires HexEncode(a) == HexEncode(b)
    ensures a == b
  {
    HexRoundTrip(a);
    HexRoundTrip(b);
  }

  /** Files match the manifest of others exactly when they have the same names and digests; so they agree on every
      covered name, or a name has two contents of one digest. */
  lemma ManifestDetectsDifference(sha: Bytes -> Bytes, f: Files, names: seq<Bytes>, g: Files)
    requires IsHash(sha) && Covers(names, f) && forall n :: n in names ==> Plain(n)
    ensures Matches(sha, Render(sha, f, names), g) <==> SameDigests(sha, f, g)
    ensures Agree(f, g) ==> Matches(sha, Render(sha, f, names), g)
    ensures Matches(sha, Render(sha, f, names), g) ==> Agree(f, g) || Collide(sha, f, g)
  {
    hide HexEncode, Parse, Render, Reserved;
    RenderParses(sha, f, names, map[]);
    forall n | n in f && n in g && HexEncode(sha(f[n])) == HexEncode(sha(g[n]))
      ensures sha(f[n]) == sha(g[n])
    {
      HexInjective(sha(f[n]), sha(g[n]));
    }
  }

  // ----- Which bundles verify

  /** Whatever the manifest, a name read off it fits a line. */
  lemma {:induction false} ParsedNamesFit(manifest: Bytes, listed: Files, name: Bytes)
    requires Parse(manifest, listed).Some? && name in Parse(manifest, listed).value && name !in listed
    ensures Fits(name)
    decreases |manifest|
  {
    var scan := ScanLine(manifest);
    if scan.Next? {
      var entry := ParseLine(scan.line).value;
      if name == entry.1 {
        var raw := manifest[..FirstNewline(manifest)];
        assert forall b :: b in scan.line ==> b in raw;
        assert forall b :: b in name ==> b in scan.line;
      } else {
        ParsedNamesFit(scan.rest, listed[entry.1 := entry.0], name);
      }
    }
  }

  /** Every name read off a rendered manifest is one of its names, but for a final carriage return. */
  lemma {:induction false} ReadNamesAreDropped(sha: Bytes -> Bytes, files: Files, names: seq<Bytes>, listed: Files,
                                               name: Bytes)
    requires IsHash(sha) && forall n :: n in names ==> n in files && Fits(n)
    requires Parse(Render(sha, files, names), listed).Some?
    requires name in Parse(Render(sha, files, names), listed).value && name !in listed
    ensures exists n :: n in names && DropReturn(n) == name
  {
    hide Line, HexEncode, ScanLine, ParseLine;
    if names != [] {
      var n, tail := names[0], Render(sha, files, names[1..]);
      FirstLine(sha, files, n, tail);
      assert n in names && forall x :: x in names[1..] ==> x in names;
      if DropReturn(n) != name {
        ReadNamesAreDropped(sha, files, names[1..], listed[DropReturn(n) := HexEncode(sha(files[n]))], name);
      }
    }
  }

  /** The longest of the names that end in a carriage return. */
  lemma {:induction false} LongestReturn(names: seq<Bytes>) returns (longest: Option<Bytes>)
    ensures longest.None? ==> forall n :: n in names ==> !EndsInReturn(n)
    ensures longest.Some? ==> longest.value in names && EndsInReturn(longest.value)
                              && forall n :: n in names && EndsInReturn(n) ==> |n| <= |longest.value|
  {
    longest := None;
    if names != [] {
      var k := |names| - 1;
      assert names == names[..k] + [names[k]];
      longest := LongestReturn(names[..k]);
      if EndsInReturn(names[k]) && (longest.None? || |names[k]| > |longest.value|) {
        longest := Some(names[k]);
      }
    }
  }

  /** A bundle's files match their own manifest exactly when every name is plain. */
  lemma OwnManifestMatches(sha: Bytes -> Bytes, files: Files, names: seq<Bytes>, sealed: Files)
    requires IsHash(sha) && Covers(names, files) && Agree(files, sealed)
    ensures Matches(sha, Render(sha, files, names), sealed) <==> forall n :: n in names ==> Plain(n)
  {
    hide Parse, Render, HexEncode, Reserved;
    var manifest := Render(sha, files, names);
    if forall n :: n in names ==> Plain(n) {
      ManifestDetectsDifference(sha, files, names, sealed);
    } else if Matches(sha, manifest, sealed) {
      forall n | n in names ensures Fits(n) {
        ParsedNamesFit(manifest, map[], n);
      }
      var longest := LongestReturn(names);
      ReadNamesAreDropped(sha, files, names, map[], longest.value);
    }
  }

  lemma {:induction false} HexNotBlank(s: Bytes)
    ensures forall i :: 0 <= i < |HexEncode(s)| ==> !Blank(HexEncode(s)[i])
  {
    if s != [] { HexNotBlank(s[1..]); }
  }

  /** A signature decodes to the digest it was made from. */
  lemma SignatureDecodes(digest: Bytes)
    requires |digest| == SHA_SIZE
    ensures DecodeSignature(PREFIX + HexEncode(digest) + [NEWLINE]) == Some(digest)
  {
    var body := PREFIX + HexEncode(digest);
    HexNotBlank(digest);
    HexRoundTrip(digest);
    hide HexEncode, HexDecode;
    assert body[0] == 115;
    assert TrimLeft(body + [NEWLINE]) == body + [NEWLINE];
    assert (body + [NEWLINE])[..|body|] == body;
    assert TrimRight(body + [NEWLINE]) == TrimRight(body) == body;
    assert body[|PREFIX|..] == HexEncode(digest);
  }

  /** VerifyBundle accepts what Bundle made exactly when every name is plain. */
  lemma BundleVerifies(sha: Bytes -> Bytes, hmac: (Bytes, Bytes) -> Bytes, files: Files, names: seq<Bytes>, key: Bytes)
    requires IsHash(sha) && (forall k, x :: |hmac(k, x)| == SHA_SIZE)
    requires key != [] && Covers(names, files)
    ensures Accepts(sha, hmac, WithSeal(sha, hmac, files, names, key), key) <==> forall n :: n in names ==> Plain(n)
  {
    hide Render, HexEncode, DecodeSignature, Matches;
    var manifest := Render(sha, files, names);
    SignatureDecodes(hmac(key, manifest));
    OwnManifestMatches(sha, files, names, WithSeal(sha, hmac, files, names, key));
  }

  /** A bundle that verifies and carries the signature of another holds the other's files, unless a hash collides:
      SHA-256 on two contents of one name, or the HMAC on the two manifests. */
  lemma TamperingShows(sha: Bytes -> Bytes, hmac: (Bytes, Bytes) -> Bytes, f: Files, names: seq<Bytes>, g: Files,
                       key: Bytes)
    requires IsHash(sha) && (forall k, x :: |hmac(k, x)| == SHA_SIZE)
    requires key != [] && Covers(names, f) && forall n :: n in names ==> Plain(n)
    requires Accepts(sha, hmac, g, key)
    requires g[SIGNATURE_FILE] == WithSeal(sha, hmac, f, names, key)[SIGNATURE_FILE]
    ensures Agree(f, g) || Collide(sha, f, g) || Collision(x => hmac(key, x), g[MANIFEST_FILE], Render(sha, f, names))
  {
    hide Render, HexEncode, DecodeSignature, Matches;
    var manifest := Render(sha, f, names);
    SignatureDecodes(hmac(key, manifest));
    if g[MANIFEST_FILE] == manifest {
      ManifestDetectsDifference(sha, f, names, g);
    }
  }
}
