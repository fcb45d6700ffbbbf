/**
 * The naming and safety rules of the asset importer (include/AssetIO.h).
 *
 * Imported files are renamed to a slug of their stem plus their extension, the
 * name is made unique inside the destination directory, a download's file name
 * is guessed from the URL, and deleteAsset refuses any target that is not
 * inside the assets directory.  The file system is a parameter: the names that
 * already exist, and for deletion which canonical paths exist and are regular
 * files.
 */
module AssetIO {
  import opened Wrappers
  import opened CTypes

  // ---------------------------------------------------------------------------
  // slugify
  // ---------------------------------------------------------------------------

  /** std::isalnum in the "C" locale. */
  predicate IsAlnum(c: char)
  {
    'a' <= c <= 'z' || 'A' <= c <= 'Z' || '0' <= c <= '9'
  }

  /** The characters a slug is made of: lower-case letters, digits, '.', '_' and '-'. */
  predicate SlugSafe(c: char)
  {
    'a' <= c <= 'z' || '0' <= c <= '9' || c == '.' || c == '_' || c == '-'
  }

  /** What slugify keeps of one input character. */
  function SlugChar(ch: char): (r: string)
    ensures |r| <= 1
    ensures forall k :: 0 <= k < |r| ==> SlugSafe(r[k])
    ensures SlugSafe(ch) ==> r == [ch]
  {
    var c := ToLower(ch);
    if IsAlnum(c) || c == '.' || c == '_' || c == '-' then [c]
    else if IsSpace(c) then "_"
    else []
  }

  /** The kept characters, in order, before the empty-result fallback. */
  function SlugBody(s: string): (r: string)
    ensures |r| <= |s|
    ensures forall k :: 0 <= k < |r| ==> SlugSafe(r[k])
  {
    if s == [] then [] else SlugChar(s[0]) + SlugBody(s[1..])
  }

  /** slugify's result: never empty, and made only of slug-safe characters. */
  function Slug(s: string): (r: string)
    ensures r != []
    ensures forall k :: 0 <= k < |r| ==> SlugSafe(r[k])
    ensures SlugBody(s) != [] ==> r == SlugBody(s)
    ensures SlugBody(s) == [] ==> r == "asset"
  {
    if SlugBody(s) == [] then "asset" else SlugBody(s)
  }

  lemma {:induction false} SlugBodyAppend(a: string, b: string)
    ensures SlugBody(a + b) == SlugBody(a) + SlugBody(b)
  {
    if a == [] {
      assert a + b == b;
    } else {
      assert (a + b)[1..] == a[1..] + b;
      SlugBodyAppend(a[1..], b);
    }
  }

  /** A string already made of slug-safe characters is its own slug body. */
  lemma {:induction false} SlugBodyOfSafe(t: string)
    requires forall k :: 0 <= k < |t| ==> SlugSafe(t[k])
    ensures SlugBody(t) == t
  {
    if t != [] {
      SlugBodyOfSafe(t[1..]);
      assert t == [t[0]] + t[1..];
    }
  }

  /** slugify is idempotent: a slug is its own slug. */
  lemma {:induction false} SlugIdempotent(s: string)
    ensures Slug(Slug(s)) == Slug(s)
  {
    SlugBodyOfSafe(Slug(s));
  }

  /** slugify (AssetIO.h): one pass pushing the kept characters, then the "asset" fallback. */
  method Slugify(s: string) returns (out: string)
    ensures out == Slug(s)
  {
    out := [];
    for i := 0 to |s|
      invariant out == SlugBody(s[..i])
    {
      var c := ToLower(s[i]);
      assert s[..i + 1] == s[..i] + [s[i]];
      SlugBodyAppend(s[..i], [s[i]]);
      if IsAlnum(c) || c == '.' || c == '_' || c == '-' {
        out := out + [c];
      } else if IsSpace(c) {
        out := out + ['_'];
      }
    }
    assert s[..|s|] == s;
    if out == [] {
      out := "asset";
    }
  }

  // ---------------------------------------------------------------------------
  // stem and extension of a file name (std::filesystem::path)
  // ---------------------------------------------------------------------------

  /** Index of the last '.' in a file name. */
  function LastDot(f: string): (r: Option<nat>)
    ensures r.Some? ==> r.value < |f| && f[r.value] == '.' && forall k :: r.value < k < |f| ==> f[k] != '.'
    ensures r.None? ==> forall k :: 0 <= k < |f| ==> f[k] != '.'
  {
    if f == [] then None
    else if f[|f| - 1] == '.' then Some(|f| - 1)
    else LastDot(f[..|f| - 1])
  }

  /**
   * path::extension of a file name without separators: from the last '.' on,
   * unless that dot starts the name, or the name is "." or "..".
   */
  function Extension(f: string): (r: string)
    ensures r == [] || (r[0] == '.' && 0 < |f| - |r| && f[|f| - |r|..] == r)
    ensures r != [] ==> forall k :: 1 <= k < |r| ==> r[k] != '.'
  {
    if f == "." || f == ".." then []
    else match LastDot(f)
      case None => []
      case Some(k) => if k == 0 then [] else f[k..]
  }

  /** path::stem: the file name without its extension. */
  function Stem(f: string): (r: string)
    ensures r + Extension(f) == f
    ensures Extension(f) != [] ==> r != []
  {
    f[..|f| - |Extension(f)|]
  }

  /** The name an imported file is given before uniqueName: slug of the stem, then the extension. */
  function ImportBaseName(fileName: string): (r: string)
    ensures |r| > |Extension(fileName)|
    ensures r[|r| - |Extension(fileName)|..] == Extension(fileName)
    ensures forall k :: 0 <= k < |r| - |Extension(fileName)| ==> SlugSafe(r[k])
  {
    var r := Slug(Stem(fileName)) + Extension(fileName);
    assert r[..|r| - |Extension(fileName)|] == Slug(Stem(fileName));
    r
  }

  // ---------------------------------------------------------------------------
  // uniqueName
  // ---------------------------------------------------------------------------

  /** The i-th alternative uniqueName tries: "stem (i)ext". */
  function Numbered(baseFile: string, i: nat): (r: string)
    ensures |r| > |baseFile| + 3
  {
    Stem(baseFile) + " (" + DecimalString(i) + ")" + Extension(baseFile)
  }

  /** The fallback when every numbered name is taken: "stem_dup" + ext. */
  function Duplicate(baseFile: string): (r: string)
    ensures |r| == |baseFile| + 4
  {
    Stem(baseFile) + "_dup" + Extension(baseFile)
  }

  const MaxNumbered: nat := 100000

  /** `i` is the first number whose "stem (i)ext" is free. */
  predicate FirstFreeNumber(existing: set<string>, baseFile: string, i: nat)
  {
    1 <= i < MaxNumbered && Numbered(baseFile, i) !in existing
    && forall j :: 1 <= j < i ==> Numbered(baseFile, j) in existing
  }

  /**
   * uniqueName (AssetIO.h): the base name when it is free, otherwise the
   * first free "stem (i)ext" for i = 1, 2, ..., 99999, otherwise "stem_dup"+ext.
   * `existing` holds the names already present in the destination directory.
   */
  method UniqueName(existing: set<string>, baseFile: string) returns (name: string)
    ensures baseFile !in existing ==> name == baseFile
    ensures baseFile in existing ==>
      (exists i :: FirstFreeNumber(existing, baseFile, i) && name == Numbered(baseFile, i))
      || (name == Duplicate(baseFile) && forall j :: 1 <= j < MaxNumbered ==> Numbered(baseFile, j) in existing)
    ensures name == baseFile <==> baseFile !in existing
  {
    if baseFile !in existing {
      return baseFile;
    }
    var i := 1;
    while i < MaxNumbered
      invariant 1 <= i <= MaxNumbered
      invariant forall j :: 1 <= j < i ==> Numbered(baseFile, j) in existing
    {
      var trial := Numbered(baseFile, i);
      if trial !in existing {
        assert FirstFreeNumber(existing, baseFile, i);
        return trial;
      }
      i := i + 1;
    }
    name := Duplicate(baseFile);
  }

  // ---------------------------------------------------------------------------
  // importFromUrl: the file name guessed from the URL
  // ---------------------------------------------------------------------------

  predicate IsSeparator(c: char)
  {
    c == '/' || c == '\\'
  }

  /** wstring::find_last_of(L"/\\"). */
  function LastSeparator(url: string): (r: Option<nat>)
    ensures r.Some? ==> r.value < |url| && IsSeparator(url[r.value])
                        && forall k :: r.value < k < |url| ==> !IsSeparator(url[k])
    ensures r.None? ==> forall k :: 0 <= k < |url| ==> !IsSeparator(url[k])
  {
    if url == [] then None
    else if IsSeparator(url[|url| - 1]) then Some(|url| - 1)
    else LastSeparator(url[..|url| - 1])
  }

  /**
   * The download's file name: the text after the last '/' or '\', or "asset"
   * when the URL has no separator or ends with one.
   */
  function UrlFileName(url: string): (r: string)
    ensures r != []
    ensures forall k :: 0 <= k < |r| ==> !IsSeparator(r[k])
    ensures (forall k :: 0 <= k < |url| ==> !IsSeparator(url[k])) ==> r == "asset"
    ensures url != [] && IsSeparator(url[|url| - 1]) ==> r == "asset"
    ensures (exists k :: 0 <= k < |url| && IsSeparator(url[k])) && !IsSeparator(url[|url| - 1]) ==>
              |r| < |url| && url[|url| - |r|..] == r && IsSeparator(url[|url| - |r| - 1])
  {
    match LastSeparator(url)
    case None => "asset"
    case Some(slash) => if slash + 1 < |url| then url[slash + 1..] else "asset"
  }

  /** The wide-to-narrow copy std::string(w.begin(), w.end()): each code unit keeps its low byte. */
  function Narrow(w: string): (r: string)
    ensures |r| == |w|
    ensures forall k :: 0 <= k < |w| ==> r[k] as int == w[k] as int % 256
  {
    seq(|w|, k requires 0 <= k < |w| => (w[k] as int % 256) as char)
  }

  /** The base name importFromUrl hands to uniqueName. */
  function UrlImportBaseName(url: string): string
  {
    ImportBaseName(Narrow(UrlFileName(url)))
  }

  // ---------------------------------------------------------------------------
  // deleteAsset: the containment rule
  // ---------------------------------------------------------------------------

  /** An absolute path after weakly_canonical: a root name (the drive) and its components. */
  datatype Path = Path(rootName: string, parts: seq<string>)

  /** Canonical components: none is empty, "." or "..". */
  predicate Canonical(p: Path)
  {
    forall k :: 0 <= k < |p.parts| ==> p.parts[k] != [] && p.parts[k] != "." && p.parts[k] != ".."
  }

  /** `inner` lies in `outer` or is `outer` itself: same drive, and outer's components are a prefix. */
  predicate Within(inner: Path, outer: Path)
  {
    inner.rootName == outer.rootName && outer.parts <= inner.parts
  }

  /** Length of the longest common prefix of two component lists. */
  function CommonPrefix(a: seq<string>, b: seq<string>): (n: nat)
    ensures n <= |a| && n <= |b| && a[..n] == b[..n]
    ensures n < |a| && n < |b| ==> a[n] != b[n]
  {
    if a == [] || b == [] || a[0] != b[0] then 0
    else
      var n := CommonPrefix(a[1..], b[1..]);
      assert a[..n + 1] == [a[0]] + a[1..][..n];
      assert b[..n + 1] == [b[0]] + b[1..][..n];
      n + 1
  }

  function DotDots(n: nat): (r: seq<string>)
    ensures |r| == n && forall k :: 0 <= k < n ==> r[k] == ".."
  {
    if n == 0 then [] else [".."] + DotDots(n - 1)
  }

  /**
   * path::lexically_relative for canonical absolute paths: None (the empty
   * path) across drives, ["."] for the same path, otherwise one ".." per
   * component of `base` past the common prefix followed by the rest of `target`.
   */
  function LexicallyRelative(target: Path, base: Path): (r: Option<seq<string>>)
    ensures r.None? <==> target.rootName != base.rootName
    ensures r.Some? ==> r.value != []
  {
    if target.rootName != base.rootName then None
    else
      var k := CommonPrefix(target.parts, base.parts);
      if k == |target.parts| && k == |base.parts| then Some(["."])
      else Some(DotDots(|base.parts| - k) + target.parts[k..])
  }

  /** The native text of a relative path starts with ".." exactly when its first component does. */
  predicate StartsWithDotDot(rel: seq<string>)
  {
    rel != [] && |rel[0]| >= 2 && rel[0][..2] == ".."
  }

  /** deleteAsset's guard as written: refuse an empty relative path or one whose text starts with "..". */
  predicate RefusesAsWritten(root: Path, target: Path)
  {
    var rel := LexicallyRelative(target, root);
    rel.None? || StartsWithDotDot(rel.value)
  }

  /** The guard as intended: refuse an empty relative path or one whose first component is "..". */
  predicate Refuses(root: Path, target: Path)
  {
    var rel := LexicallyRelative(target, root);
    rel.None? || rel.value[0] == ".."
  }

  /** The intended guard lets through exactly the targets inside the assets root. */
  lemma {:induction false} RefusesExactlyOutside(root: Path, target: Path)
    requires Canonical(root) && Canonical(target)
    ensures !Refuses(root, target) <==> Within(target, root)
  {
    if target.rootName == root.rootName {
      var k := CommonPrefix(target.parts, root.parts);
      if k == |root.parts| {
        assert root.parts == target.parts[..k];
      } else {
        assert DotDots(|root.parts| - k)[0] == "..";
        assert !(root.parts <= target.parts) by {
          if k < |target.parts| {
            assert root.parts[k] != target.parts[k];
          }
        }
      }
    }
  }

  /** The guard as written is safe: whatever it lets through is inside the assets root. */
  lemma {:induction false} RefusesAsWrittenSafe(root: Path, target: Path)
    requires Canonical(root) && Canonical(target)
    ensures !RefusesAsWritten(root, target) ==> Within(target, root)
  {
    RefusesExactlyOutside(root, target);
    if target.rootName == root.rootName {
      var k := CommonPrefix(target.parts, root.parts);
      if k < |root.parts| {
        assert DotDots(|root.parts| - k)[0] == "..";
        assert StartsWithDotDot(LexicallyRelative(target, root).value);
      }
    }
  }

  /**
   * The guard as written also refuses a file inside the root whose name starts
   * with "..", such as "..a.png" (a name slugify can produce).
   */
  lemma {:induction false} RefusesAsWrittenInside()
    ensures var root := Path("C:", ["assets"]);
            var target := Path("C:", ["assets", "..a.png"]);
            Canonical(root) && Canonical(target) && Within(target, root)
            && RefusesAsWritten(root, target) && !Refuses(root, target)
  {
    var root := Path("C:", ["assets"]);
    var target := Path("C:", ["assets", "..a.png"]);
    assert target.parts[1..] == ["..a.png"] && root.parts[1..] == [];
    assert CommonPrefix(target.parts, root.parts) == 1 by {
      assert CommonPrefix(target.parts[1..], root.parts[1..]) == 0;
    }
    assert DotDots(0) == [];
    assert DotDots(|root.parts| - 1) + target.parts[1..] == ["..a.png"];
    assert LexicallyRelative(target, root) == Some(["..a.png"]);
    assert "..a.png"[..2] == "..";
    assert "..a.png" != "..";
  }

  datatype FileKind = RegularFile | OtherEntry

  /** The checks after the guard: the target must exist and be a regular file. */
  function EntryCheck(target: Path, entries: map<Path, FileKind>): (r: Result<Path>)
    ensures r.Ok? <==> target in entries && entries[target] == RegularFile
    ensures r.Ok? ==> r.value == target
    ensures target !in entries ==> r == Err("File not found")
  {
    if target !in entries then Err("File not found")
    else if entries[target] != RegularFile then Err("Not a file")
    else Ok(target)
  }

  /**
   * deleteAsset's checks, in the source's order, up to the removal itself,
   * with the guard as written.  `root` is None when the assets root is
   * invalid and `target` None when it cannot be canonicalized; `entries`
   * gives what exists and what kind it is.
   */
  function DeleteCheck(root: Option<Path>, target: Option<Path>, entries: map<Path, FileKind>): (r: Result<Path>)
    ensures root.None? ==> r == Err("Invalid assets root")
    ensures root.Some? && target.None? ==> r == Err("Path canonicalization failed")
    ensures r.Ok? ==> root.Some? && target.Some? && r.value == target.value
                      && !RefusesAsWritten(root.value, target.value)
                      && target.value in entries && entries[target.value] == RegularFile
    ensures root.Some? && target.Some? && RefusesAsWritten(root.value, target.value) ==>
              r == Err("Refusing to delete outside assets dir")
  {
    if root.None? then Err("Invalid assets root")
    else if target.None? then Err("Path canonicalization failed")
    else if RefusesAsWritten(root.value, target.value) then Err("Refusing to delete outside assets dir")
    else EntryCheck(target.value, entries)
  }

  /** A deletion that passes the checks as written only ever touches a regular file inside the assets root. */
  lemma {:induction false} DeleteStaysInside(root: Option<Path>, target: Option<Path>, entries: map<Path, FileKind>)
    requires root.Some? && target.Some? && Canonical(root.value) && Canonical(target.value)
    ensures DeleteCheck(root, target, entries).Ok? ==>
              Within(target.value, root.value) && entries[target.value] == RegularFile
  {
    RefusesAsWrittenSafe(root.value, target.value);
  }

  /** deleteAsset's checks with the guard as intended: only a target outside the root is refused. */
  function DeleteCheckIntended(root: Option<Path>, target: Option<Path>, entries: map<Path, FileKind>): (r: Result<Path>)
    ensures root.None? ==> r == Err("Invalid assets root")
    ensures root.Some? && target.None? ==> r == Err("Path canonicalization failed")
    ensures r.Ok? ==> root.Some? && target.Some? && r.value == target.value
                      && !Refuses(root.value, target.value)
                      && target.value in entries && entries[target.value] == RegularFile
    ensures root.Some? && target.Some? && Refuses(root.value, target.value) ==>
              r == Err("Refusing to delete outside assets dir")
  {
    if root.None? then Err("Invalid assets root")
    else if target.None? then Err("Path canonicalization failed")
    else if Refuses(root.value, target.value) then Err("Refusing to delete outside assets dir")
    else EntryCheck(target.value, entries)
  }

  /**
   * With the intended guard a deletion goes ahead exactly for a regular file
   * inside the assets root, and whatever the guard as written lets through,
   * the intended one does too.
   */
  lemma {:induction false} DeleteStaysInsideIntended(root: Option<Path>, target: Option<Path>, entries: map<Path, FileKind>)
    requires root.Some? && target.Some? && Canonical(root.value) && Canonical(target.value)
    ensures DeleteCheckIntended(root, target, entries).Ok? <==>
              Within(target.value, root.value) && target.value in entries && entries[target.value] == RegularFile
    ensures DeleteCheck(root, target, entries).Ok? ==> DeleteCheckIntended(root, target, entries) == DeleteCheck(root, target, entries)
  {
    RefusesExactlyOutside(root.value, target.value);
    RefusesAsWrittenSafe(root.value, target.value);
  }

  /** An existing file "..a.png" in the assets root: the checks as written refuse it, the intended ones delete it. */
  lemma {:induction false} DeleteRefusedInside()
    ensures var root := Path("C:", ["assets"]);
            var target := Path("C:", ["assets", "..a.png"]);
            var entries := map[target := RegularFile];
            DeleteCheck(Some(root), Some(target), entries) == Err("Refusing to delete outside assets dir")
            && DeleteCheckIntended(Some(root), Some(target), entries) == Ok(target)
  {
    RefusesAsWrittenInside();
  }
}
