/** File names and storage keys of product images. */
module StorageKeys {
  import opened Prelude
  import opened Text

  // ---- the pieces of the pipeline ----

  /** `s.split(sep).pop()`. */
  function LastSegment(s: string, sep: char): string {
    if s == "" then "" else if s[|s| - 1] == sep then "" else LastSegment(s[..|s| - 1], sep) + [s[|s| - 1]]
  }

  /** `s.lastIndexOf('.')`. */
  function LastDot(s: string): (r: int)
    ensures -1 <= r < |s|
    ensures r >= 0 ==> s[r] == '.'
    ensures forall i | r < i < |s| :: s[i] != '.'
  {
    if s == "" then -1 else if s[|s| - 1] == '.' then |s| - 1 else LastDot(s[..|s| - 1])
  }

  /** Every other character becomes an underscore. */
  function Substitute(s: string): string {
    seq(|s|, i requires 0 <= i < |s| => if WordChar(s[i]) then s[i] else '_')
  }

  /** Runs of underscores become one. */
  function Squeeze(s: string): string {
    if |s| <= 1 then s
    else if s[0] == '_' && s[1] == '_' then Squeeze(s[1..])
    else [s[0]] + Squeeze(s[1..])
  }

  function DropLeading(s: string, c: char): (r: string)
    ensures |r| <= |s| && (s != "" && s[0] == c ==> |r| < |s|)
  {
    if s != "" && s[0] == c then DropLeading(s[1..], c) else s
  }

  /** `s.substring(0, n)`. */
  function Truncate(s: string, n: nat): string {
    if |s| <= n then s else s[..n]
  }

  /** Runs of two or more dots become one underscore. */
  function ReplaceDotRuns(s: string): string
    decreases |s|
  {
    if s == "" then ""
    else if |s| > 1 && s[0] == '.' && s[1] == '.' then "_" + ReplaceDotRuns(DropLeading(s, '.'))
    else [s[0]] + ReplaceDotRuns(s[1..])
  }

  predicate Allowed(ext: string) {
    ext == ".jpg" || ext == ".jpeg" || ext == ".png" || ext == ".webp" || ext == ".gif"
  }

  function CleanBase(base: string): string {
    var s := Truncate(DropLeading(DropLeading(Squeeze(Substitute(base)), '.'), '_'), 100);
    if s == "" then "file" else s
  }

  /** `sanitizeFilename`, on a present string or on anything else. */
  function SanitizeFilename(filename: Option<string>): string {
    if filename.None? || filename.value == "" then "file.jpg"
    else
      var basename := LastSegment(LastSegment(filename.value, '/'), '\\');
      var dot := LastDot(basename);
      var ext := if dot > 0 then Lower(basename[dot..]) else "";
      var base := if dot > 0 then basename[..dot] else if dot == 0 then basename[1..] else basename;
      var result := CleanBase(base) + (if Allowed(ext) then ext else ".jpg");
      var final := Truncate(ReplaceDotRuns(result), 255);
      if Contains(final, "..") then "file.jpg" else final
  }

  // ---- what comes out ----

  predicate Words(s: string) {
    forall i | 0 <= i < |s| :: WordChar(s[i])
  }

  predicate NoDoubleUnderscore(s: string) {
    forall i | 0 <= i < |s| - 1 :: !(s[i] == '_' && s[i + 1] == '_')
  }

  predicate GoodBase(b: string) {
    1 <= |b| <= 100 && Words(b) && NoDoubleUnderscore(b) && b[0] != '_'
  }

  /** A good base and an allowed extension, split at position n. */
  predicate CanonicalAt(s: string, n: nat) {
    n <= |s| && GoodBase(s[..n]) && Allowed(s[n..])
  }

  ghost predicate Canonical(s: string) {
    exists n: nat :: CanonicalAt(s, n)
  }

  lemma {:induction false} SqueezeIsTight(s: string)
    requires Words(s)
    ensures Words(Squeeze(s)) && NoDoubleUnderscore(Squeeze(s))
    ensures s != "" ==> Squeeze(s) != "" && Squeeze(s)[0] == s[0]
    decreases |s|
  {
    if |s| > 1 {
      SqueezeIsTight(s[1..]);
    }
  }

  lemma {:induction false} DropIsSuffix(s: string, c: char) returns (k: nat)
    ensures k <= |s| && DropLeading(s, c) == s[k..]
    ensures DropLeading(s, c) != "" ==> DropLeading(s, c)[0] != c
    decreases |s|
  {
    if s != "" && s[0] == c {
      k := DropIsSuffix(s[1..], c);
      k := k + 1;
    } else {
      k := 0;
    }
  }

  lemma PartOfWords(s: string, lo: nat, hi: nat)
    requires Words(s) && NoDoubleUnderscore(s) && lo <= hi <= |s|
    ensures Words(s[lo..hi]) && NoDoubleUnderscore(s[lo..hi])
  {
    assert forall i | 0 <= i < hi - lo :: s[lo..hi][i] == s[lo + i];
  }

  lemma DropKeepsWords(s: string, c: char)
    requires Words(s) && NoDoubleUnderscore(s)
    ensures var r := DropLeading(s, c); Words(r) && NoDoubleUnderscore(r) && (r != "" ==> r[0] != c)
  {
    var k := DropIsSuffix(s, c);
    PartOfWords(s, k, |s|);
    assert s[k..] == s[k..|s|];
  }

  lemma CleanBaseIsGood(base: string)
    ensures GoodBase(CleanBase(base))
  {
    SqueezeIsTight(Substitute(base));
    var b := DropLeading(Squeeze(Substitute(base)), '.');
    DropKeepsWords(Squeeze(Substitute(base)), '.');
    DropKeepsWords(b, '_');
    var c := DropLeading(b, '_');
    PartOfWords(c, 0, if |c| <= 100 then |c| else 100);
    assert c[0..|c|] == c && (|c| > 100 ==> c[0..100] == c[..100]);
  }

  lemma {:induction false} SqueezeKeeps(s: string)
    requires NoDoubleUnderscore(s)
    ensures Squeeze(s) == s
    decreases |s|
  {
    if |s| > 1 {
      assert forall i | 0 <= i < |s| - 1 :: s[1..][i] == s[i + 1];
      SqueezeKeeps(s[1..]);
    }
  }

  lemma GoodBaseStays(b: string)
    requires GoodBase(b)
    ensures CleanBase(b) == b
  {
    assert Substitute(b) == b;
    SqueezeKeeps(b);
    assert b[0] != '.';
  }

  /** Without two dots in a row nothing is replaced. */
  lemma {:induction false} DotRunsKeep(s: string)
    requires forall i | 0 <= i < |s| - 1 :: !(s[i] == '.' && s[i + 1] == '.')
    ensures ReplaceDotRuns(s) == s
    decreases |s|
  {
    if s != "" {
      assert forall i | 0 <= i < |s| - 1 :: s[1..][i] == s[i + 1];
      DotRunsKeep(s[1..]);
    }
  }

  /** In a canonical name the only dot is the one at the split. */
  lemma CanonicalHasOneDot(s: string, n: nat)
    requires CanonicalAt(s, n)
    ensures n < |s| <= 105 && s[n] == '.' && forall i | 0 <= i < |s| && i != n :: s[i] != '.'
    ensures forall i | 0 <= i < |s| && i != n :: WordChar(s[i])
    ensures forall i | n < i < |s| :: s[i] != '_'
  {
    var b, e := s[..n], s[n..];
    assert forall i | 0 <= i < |s| :: s[i] == if i < n then b[i] else e[i - n];
  }

  /** The tail of the pipeline leaves a canonical name alone. */
  lemma TailKeeps(s: string, n: nat)
    requires CanonicalAt(s, n)
    ensures ReplaceDotRuns(s) == s && Truncate(s, 255) == s && !Contains(s, "..")
  {
    CanonicalHasOneDot(s, n);
    DotRunsKeep(s);
    forall i | 0 <= i <= |s| ensures !(".." <= s[i..]) {
      if i + 1 < |s| {
        assert s[i..][0] == s[i] && s[i..][1] == s[i + 1];
      }
    }
  }

  /** Whatever the client calls its file, the name stored is canonical. */
  lemma SanitizedIsCanonical(filename: Option<string>)
    ensures Canonical(SanitizeFilename(filename))
  {
    if filename.None? || filename.value == "" {
      assert CanonicalAt("file.jpg", 4);
    } else {
      var basename := LastSegment(LastSegment(filename.value, '/'), '\\');
      var dot := LastDot(basename);
      var ext := if dot > 0 then Lower(basename[dot..]) else "";
      var base := if dot > 0 then basename[..dot] else if dot == 0 then basename[1..] else basename;
      var clean := CleanBase(base);
      var result := clean + (if Allowed(ext) then ext else ".jpg");
      CleanBaseIsGood(base);
      assert result[..|clean|] == clean && result[|clean|..] == if Allowed(ext) then ext else ".jpg";
      assert CanonicalAt(result, |clean|);
      TailKeeps(result, |clean|);
    }
  }

  lemma {:induction false} LastSegmentKeeps(s: string, sep: char)
    requires forall i | 0 <= i < |s| :: s[i] != sep
    ensures LastSegment(s, sep) == s
    decreases |s|
  {
    if s != "" {
      LastSegmentKeeps(s[..|s| - 1], sep);
    }
  }

  /** A canonical name is left as it is. */
  lemma CanonicalStays(s: string, n: nat)
    requires CanonicalAt(s, n)
    ensures SanitizeFilename(Some(s)) == s
  {
    CanonicalHasOneDot(s, n);
    LastSegmentKeeps(s, '/');
    LastSegmentKeeps(s, '\\');
    assert LastDot(s) == n;
    assert Lower(s[n..]) == s[n..];
    GoodBaseStays(s[..n]);
    assert s[..n] + s[n..] == s;
    TailKeeps(s, n);
  }

  /** The fixpoints of the sanitiser are the canonical names, and nothing else. */
  lemma FixpointsAreCanonical(s: string)
    ensures SanitizeFilename(Some(s)) == s <==> Canonical(s)
  {
    SanitizedIsCanonical(Some(s));
    if Canonical(s) {
      var n: nat :| CanonicalAt(s, n);
      CanonicalStays(s, n);
    }
  }

  /** Sanitising twice is sanitising once. */
  lemma SanitizeIsIdempotent(filename: Option<string>)
    ensures SanitizeFilename(Some(SanitizeFilename(filename))) == SanitizeFilename(filename)
  {
    SanitizedIsCanonical(filename);
    FixpointsAreCanonical(SanitizeFilename(filename));
  }

  /** The stored name has exactly one dot, no separator, no double underscore, and at most 105 characters. */
  lemma SanitizedIsSafe(filename: Option<string>)
    ensures var s := SanitizeFilename(filename);
            && 1 <= |s| <= 105
            && (exists n :: 0 < n < |s| && s[n] == '.' && Allowed(s[n..]) && forall i | 0 <= i < |s| && i != n ::
                WordChar(s[i]))
            && NoDoubleUnderscore(s) && s[0] != '_'
  {
    SanitizedIsCanonical(filename);
    var s := SanitizeFilename(filename);
    var n: nat :| CanonicalAt(s, n);
    CanonicalHasOneDot(s, n);
    forall i | 0 <= i < |s| - 1 ensures !(s[i] == '_' && s[i + 1] == '_') {
      if i + 1 < n {
        assert s[..n][i] == s[i] && s[..n][i + 1] == s[i + 1];
      }
    }
    assert s[0] == s[..n][0];
  }

  // ---- what is left of the client's name ----

  predicate PathFree(s: string) {
    forall i | 0 <= i < |s| :: s[i] != '/' && s[i] != '\\'
  }

  lemma {:induction false} LastSegmentConcat(x: string, y: string, sep: char)
    requires forall i | 0 <= i < |y| :: y[i] != sep
    ensures LastSegment(x + y, sep) == LastSegment(x, sep) + y
    decreases |y|
  {
    if y == "" {
      assert x + y == x;
    } else {
      var n := |y| - 1;
      LastSegmentConcat(x, y[..n], sep);
      assert (x + y)[..|x + y| - 1] == x + y[..n] && (x + y)[|x + y| - 1] == y[n];
      assert y == y[..n] + [y[n]];
    }
  }

  /** Directories, with either slash, are dropped. */
  lemma DirectoriesAreDropped(dir: string, name: string)
    requires PathFree(name) && (dir == "" || dir[|dir| - 1] == '/' || dir[|dir| - 1] == '\\')
    ensures LastSegment(LastSegment(dir + name, '/'), '\\') == name
  {
    LastSegmentConcat(dir, name, '/');
    LastSegmentConcat(LastSegment(dir, '/'), name, '\\');
  }

  lemma LastDotAt(base: string, rest: string)
    requires forall i | 0 <= i < |rest| :: rest[i] != '.'
    ensures LastDot(base + "." + rest) == |base|
  {
    var s, tail := base + "." + rest, "." + rest;
    assert forall i | 0 < i < |tail| :: tail[i] == rest[i - 1];
    assert s == base + tail && s[|base|] == tail[0];
    assert forall i | |base| < i < |s| :: s[i] == tail[i - |base|];
  }

  lemma CleanedName(base: string, ext: string)
    requires Allowed(ext)
    ensures var result := CleanBase(base) + ext;
            Truncate(ReplaceDotRuns(result), 255) == result && !Contains(result, "..")
  {
    var result := CleanBase(base) + ext;
    CleanBaseIsGood(base);
    assert result[..|CleanBase(base)|] == CleanBase(base) && result[|CleanBase(base)|..] == ext;
    assert CanonicalAt(result, |CleanBase(base)|);
    TailKeeps(result, |CleanBase(base)|);
  }

  lemma NamePathFree(base: string, rest: string)
    requires PathFree(base) && PathFree(rest)
    ensures PathFree(base + "." + rest)
  {
    var tail := "." + rest;
    assert forall i | 0 <= i < |tail| :: tail[i] == if i == 0 then '.' else rest[i - 1];
  }

  lemma SplitName(base: string, rest: string)
    ensures (base + "." + rest)[..|base|] == base && (base + "." + rest)[|base|..] == "." + rest
  {
  }

  lemma AllowedIff(rest: string)
    ensures Lower("." + rest) == "." + Lower(rest)
    ensures Allowed("." + Lower(rest)) <==> Lower(rest) in {"jpg", "jpeg", "png", "webp", "gif"}
  {
    assert ("." + Lower(rest))[1..] == Lower(rest);
    assert ".jpg"[1..] == "jpg" && ".jpeg"[1..] == "jpeg" && ".png"[1..] == "png";
    assert ".webp"[1..] == "webp" && ".gif"[1..] == "gif";
  }

  /** What becomes of the last segment of the name. */
  lemma FromLastSegment(filename: string, name: string, dot: int)
    requires filename != "" && LastSegment(LastSegment(filename, '/'), '\\') == name && LastDot(name) == dot
    ensures var ext := if dot > 0 then Lower(name[dot..]) else "";
            SanitizeFilename(Some(filename))
            == CleanBase(if dot > 0 then name[..dot] else if dot == 0 then name[1..] else name)
               + (if Allowed(ext) then ext else ".jpg")
  {
    var ext := if dot > 0 then Lower(name[dot..]) else "";
    CleanedName(if dot > 0 then name[..dot] else if dot == 0 then name[1..] else name,
                if Allowed(ext) then ext else ".jpg");
  }

  /** The name in front of the last dot is cleaned, what follows it is written small, and kept only for images. */
  lemma NameAndExtension(dir: string, base: string, rest: string)
    requires PathFree(base) && base != "" && PathFree(rest) && forall i | 0 <= i < |rest| :: rest[i] != '.'
    requires dir == "" || dir[|dir| - 1] == '/' || dir[|dir| - 1] == '\\'
    ensures SanitizeFilename(Some(dir + (base + "." + rest)))
            == CleanBase(base)
               + (if Lower(rest) in {"jpg", "jpeg", "png", "webp", "gif"} then "." + Lower(rest) else ".jpg")
  {
    var name := base + "." + rest;
    NamePathFree(base, rest);
    DirectoriesAreDropped(dir, name);
    LastDotAt(base, rest);
    SplitName(base, rest);
    AllowedIff(rest);
    FromLastSegment(dir + name, name, |base|);
  }

  lemma EmptyBase()
    ensures CleanBase("") == "file" && "file" + ".jpg" == "file.jpg"
  {
    assert Substitute("") == "";
  }

  /** Without a dot nothing is an extension; no name at all is `file.jpg`. */
  lemma WithoutExtension(dir: string, base: string)
    requires PathFree(base) && forall i | 0 <= i < |base| :: base[i] != '.'
    requires dir == "" || dir[|dir| - 1] == '/' || dir[|dir| - 1] == '\\'
    ensures SanitizeFilename(None) == "file.jpg"
    ensures SanitizeFilename(Some(dir + base)) == CleanBase(base) + ".jpg"
  {
    DirectoriesAreDropped(dir, base);
    if dir + base == "" {
      assert base == "";
      EmptyBase();
    } else {
      FromLastSegment(dir + base, base, -1);
    }
  }

  /** Nor is it after a leading dot only. */
  lemma HiddenFile(dir: string, base: string)
    requires PathFree(base) && forall i | 0 <= i < |base| :: base[i] != '.'
    requires dir == "" || dir[|dir| - 1] == '/' || dir[|dir| - 1] == '\\'
    ensures SanitizeFilename(Some(dir + ("." + base))) == CleanBase(base) + ".jpg"
  {
    var name := "." + base;
    NamePathFree("", base);
    LastDotAt("", base);
    assert "" + "." + base == name && name[1..] == base;
    DirectoriesAreDropped(dir, name);
    FromLastSegment(dir + name, name, 0);
  }

  /** A clean name of up to a hundred characters stays, and a longer one is cut. */
  lemma CleanNamesStay(base: string)
    requires base != "" && Words(base) && NoDoubleUnderscore(base) && base[0] != '_'
    ensures CleanBase(base) == if |base| <= 100 then base else base[..100]
  {
    assert Substitute(base) == base;
    SqueezeKeeps(base);
    assert base[0] != '.';
  }

  lemma {:induction false} SqueezeRun(n: nat, b: string)
    requires n > 0 && NoDoubleUnderscore(b) && (b != "" ==> b[0] != '_')
    ensures Squeeze(seq(n, i => '_') + b) == "_" + b
    decreases n
  {
    var s := seq(n, i => '_') + b;
    if n == 1 {
      assert s == "_" + b;
      SqueezeKeeps(s);
    } else {
      assert s[1..] == seq(n - 1, i => '_') + b;
      SqueezeRun(n - 1, b);
    }
  }

  lemma {:induction false} SqueezeAround(a: string, n: nat, b: string)
    requires NoDoubleUnderscore(a) && (a != "" ==> a[|a| - 1] != '_') && n > 0
    requires NoDoubleUnderscore(b) && (b != "" ==> b[0] != '_')
    ensures Squeeze(a + seq(n, i => '_') + b) == a + "_" + b
    decreases |a|
  {
    var run := seq(n, i => '_');
    if a == "" {
      assert a + run + b == run + b;
      SqueezeRun(n, b);
    } else {
      var s := a + run + b;
      assert s[1..] == a[1..] + run + b && s[0] == a[0];
      assert s[1] == if |a| > 1 then a[1] else '_';
      assert forall i | 0 <= i < |a| - 1 :: a[1..][i] == a[i + 1];
      SqueezeAround(a[1..], n, b);
      assert [a[0]] + (a[1..] + "_" + b) == a + "_" + b;
    }
  }

  /** Between clean parts, any run of other characters, dots and underscores becomes one underscore. */
  lemma OddCharactersAreReplaced(a: string, odd: string, b: string)
    requires a != "" && Words(a) && NoDoubleUnderscore(a) && a[0] != '_' && a[|a| - 1] != '_'
    requires b != "" && Words(b) && NoDoubleUnderscore(b) && b[0] != '_' && |a| + 1 + |b| <= 100
    requires odd != "" && forall i | 0 <= i < |odd| :: !WordChar(odd[i]) || odd[i] == '_'
    ensures CleanBase(a + odd + b) == a + "_" + b
  {
    var s := Substitute(a + odd + b);
    var run := seq(|odd|, i => '_');
    assert s == a + run + b;
    SqueezeAround(a, |odd|, b);
    var t := a + "_" + b;
    assert t[0] == a[0];
    assert t[0] != '.' && t[0] != '_';
  }

  /** A name of nothing but such characters is no name. */
  lemma NothingLeft(odd: string)
    requires forall i | 0 <= i < |odd| :: !WordChar(odd[i]) || odd[i] == '_'
    ensures CleanBase(odd) == "file"
  {
    assert Substitute(odd) == seq(|odd|, i => '_');
    if odd != "" {
      SqueezeRun(|odd|, "");
      assert seq(|odd|, i => '_') + "" == seq(|odd|, i => '_');
      assert "_" + "" == "_" && "_"[1..] == "";
    }
  }

  // ---- storage keys ----

  /** Eight leading characters of a random UUID. */
  predicate IsUnique(u: string) {
    |u| == 8 && forall i | 0 <= i < |u| :: UuidChar(u[i])
  }

  function Slashed(segs: seq<string>): string {
    if segs == [] then "" else if |segs| == 1 then segs[0] else segs[0] + "/" + Slashed(segs[1..])
  }

  function ProductSegments(tenantId: string, productId: string, unique: string, filename: Option<string>): seq<string> {
    ["tenants", tenantId, "products", productId, unique + "_" + SanitizeFilename(filename)]
  }

  function VariantSegments(tenantId: string, productId: string, variantId: string, unique: string,
                           filename: Option<string>): seq<string> {
    ["tenants", tenantId, "products", productId, "variants", variantId, unique + "_" + SanitizeFilename(filename)]
  }

  function ProductImageKey(tenantId: string, productId: string, unique: string, filename: Option<string>): string {
    Slashed(ProductSegments(tenantId, productId, unique, filename))
  }

  function VariantImageKey(tenantId: string, productId: string, variantId: string, unique: string,
                           filename: Option<string>): string {
    Slashed(VariantSegments(tenantId, productId, variantId, unique, filename))
  }

  /** `s.split('/')`. */
  function Split(s: string): (r: seq<string>)
    ensures |r| >= 1
  {
    if s == "" then [""]
    else
      var rest := Split(s[1..]);
      if s[0] == '/' then [""] + rest else [[s[0]] + rest[0]] + rest[1..]
  }

  datatype KeyError = INVALID_STORAGE_KEY | INVALID_STORAGE_PATH

  /** `assertTenantScopedKey`: any tenant segment passes if it is like a UUID or at least three long. */
  function CheckKey(key: string): Result<(), KeyError> {
    if key == "" then Err(INVALID_STORAGE_KEY)
    else if Contains(key, "..") || "/" <= key || '\\' in key || '\0' in key || ':' in key || Contains(key, "//")
    then Err(INVALID_STORAGE_PATH)
    else if !("tenants/" <= key) then Err(INVALID_STORAGE_KEY)
    else
      var segments := Split(key);
      if |segments| < 2 then Err(INVALID_STORAGE_KEY)
      else if (|segments| < 3 || !IsUuidLike(segments[1])) && |segments[1]| < 3 then Err(INVALID_STORAGE_KEY)
      else Ok(())
  }

  predicate NoSlash(s: string) {
    forall i | 0 <= i < |s| :: s[i] != '/'
  }

  lemma {:induction false} SplitSkips(a: string, s: string)
    requires NoSlash(a)
    ensures Split(a + s) == [a + Split(s)[0]] + Split(s)[1..]
    decreases |a|
  {
    if a == "" {
      assert a + s == s && a + Split(s)[0] == Split(s)[0];
    } else {
      assert (a + s)[0] == a[0] && (a + s)[1..] == a[1..] + s;
      SplitSkips(a[1..], s);
      assert [a[0]] + (a[1..] + Split(s)[0]) == a + Split(s)[0];
    }
  }

  /** Splitting what was joined gives the segments back. */
  lemma {:induction false} SplitJoined(segs: seq<string>)
    requires |segs| > 0 && forall i | 0 <= i < |segs| :: NoSlash(segs[i])
    ensures Split(Slashed(segs)) == segs
    decreases |segs|
  {
    if |segs| == 1 {
      SplitSkips(segs[0], "");
      assert segs[0] + "" == segs[0];
    } else {
      var tail := "/" + Slashed(segs[1..]);
      assert Slashed(segs) == segs[0] + tail;
      SplitSkips(segs[0], tail);
      SplitJoined(segs[1..]);
      assert tail[1..] == Slashed(segs[1..]);
      assert Split(tail) == [""] + segs[1..];
      assert segs[0] + "" == segs[0];
    }
  }

  /** A segment that a key check lets through: not empty, and only word characters and single dots. */
  predicate SafeSegment(s: string) {
    && s != ""
    && (forall i | 0 <= i < |s| :: WordChar(s[i]) || s[i] == '.')
    && (forall i | 0 <= i < |s| - 1 :: !(s[i] == '.' && s[i + 1] == '.'))
  }

  /** Joining plain segments creates neither `..` nor `//`, and starts with no slash. */
  lemma {:induction false} JoinedIsPlain(segs: seq<string>)
    requires |segs| > 0 && forall i | 0 <= i < |segs| :: SafeSegment(segs[i])
    ensures var s := Slashed(segs);
            && s != "" && s[0] != '/'
            && (forall i | 0 <= i < |s| :: WordChar(s[i]) || s[i] == '.' || s[i] == '/')
            && (forall i | 0 <= i < |s| - 1 :: !(s[i] == '.' && s[i + 1] == '.') && !(s[i] == '/' && s[i + 1] == '/'))
    decreases |segs|
  {
    if |segs| > 1 {
      JoinedIsPlain(segs[1..]);
      var h, t := segs[0], Slashed(segs[1..]);
      var s := Slashed(segs);
      assert s == h + "/" + t;
      assert forall i | 0 <= i < |s| :: s[i] == if i < |h| then h[i] else if i == |h| then '/' else t[i - |h| - 1];
    }
  }

  lemma PairAbsent(s: string, c: char)
    requires forall i | 0 <= i < |s| - 1 :: !(s[i] == c && s[i + 1] == c)
    ensures !Contains(s, [c, c])
  {
    forall i | 0 <= i <= |s| ensures !([c, c] <= s[i..]) {
      if i + 1 < |s| {
        assert s[i..][0] == s[i] && s[i..][1] == s[i + 1];
      }
    }
  }

  /** The traversal test finds nothing in joined plain segments. */
  lemma NothingSuspicious(key: string)
    requires key != "" && key[0] != '/'
    requires forall i | 0 <= i < |key| :: WordChar(key[i]) || key[i] == '.' || key[i] == '/'
    requires forall i | 0 <= i < |key| - 1 ::
               !(key[i] == '.' && key[i + 1] == '.') && !(key[i] == '/' && key[i + 1] == '/')
    ensures !(Contains(key, "..") || "/" <= key || '\\' in key || '\0' in key || ':' in key || Contains(key, "//"))
  {
    PairAbsent(key, '.');
    PairAbsent(key, '/');
    assert ['.', '.'] == ".." && ['/', '/'] == "//";
  }

  lemma StartsWithHead(segs: seq<string>)
    requires |segs| > 1
    ensures segs[0] + "/" <= Slashed(segs)
  {
  }

  /** Plain segments under `tenants/`, with a UUID as tenant, always pass the check. */
  lemma PlainKeyPasses(segs: seq<string>)
    requires |segs| >= 3 && segs[0] == "tenants" && IsUuidLike(segs[1])
    requires forall i | 0 <= i < |segs| :: SafeSegment(segs[i])
    ensures CheckKey(Slashed(segs)).Ok? && Split(Slashed(segs)) == segs
  {
    var key := Slashed(segs);
    JoinedIsPlain(segs);
    NothingSuspicious(key);
    SplitJoined(segs);
    StartsWithHead(segs);
  }

  lemma ImageNameIsPlain(unique: string, filename: Option<string>)
    requires IsUnique(unique)
    ensures SafeSegment(unique + "_" + SanitizeFilename(filename))
  {
    SanitizedIsSafe(filename);
    var s := SanitizeFilename(filename);
    var t := unique + "_" + s;
    assert forall i | 0 <= i < |t| :: t[i] == if i < 8 then unique[i] else if i == 8 then '_' else s[i - 9];
  }

  lemma UuidIsPlain(s: string)
    requires IsUuidLike(s)
    ensures SafeSegment(s)
  {
  }

  /** Generated keys always pass the check, and splitting them gives back the tenant and the rest. */
  lemma ProductKeyPasses(tenantId: string, productId: string, unique: string, filename: Option<string>)
    requires IsUuidLike(tenantId) && IsUuidLike(productId) && IsUnique(unique)
    ensures var key := ProductImageKey(tenantId, productId, unique, filename);
            CheckKey(key).Ok?
            && Split(key) == ["tenants", tenantId, "products", productId, unique + "_" + SanitizeFilename(filename)]
  {
    UuidIsPlain(tenantId);
    UuidIsPlain(productId);
    ImageNameIsPlain(unique, filename);
    var segs := ProductSegments(tenantId, productId, unique, filename);
    assert SafeSegment("tenants") && SafeSegment("products");
    assert forall i | 0 <= i < 5 :: SafeSegment(segs[i]);
    PlainKeyPasses(segs);
  }

  lemma VariantSegmentsAreSafe(tenantId: string, productId: string, variantId: string, unique: string,
                               filename: Option<string>)
    requires IsUuidLike(tenantId) && IsUuidLike(productId) && IsUuidLike(variantId) && IsUnique(unique)
    ensures forall i | 0 <= i < 7 ::
              SafeSegment(VariantSegments(tenantId, productId, variantId, unique, filename)[i])
  {
    UuidIsPlain(tenantId);
    UuidIsPlain(productId);
    UuidIsPlain(variantId);
    ImageNameIsPlain(unique, filename);
    assert SafeSegment("tenants") && SafeSegment("products") && SafeSegment("variants");
  }

  lemma VariantKeyPasses(tenantId: string, productId: string, variantId: string, unique: string,
      filename: Option<string>)
    requires IsUuidLike(tenantId) && IsUuidLike(productId) && IsUuidLike(variantId) && IsUnique(unique)
    ensures var key := VariantImageKey(tenantId, productId, variantId, unique, filename);
            CheckKey(key).Ok?
            && Split(key) == ["tenants", tenantId, "products", productId, "variants", variantId,
                              unique + "_" + SanitizeFilename(filename)]
  {
    VariantSegmentsAreSafe(tenantId, productId, variantId, unique, filename);
    PlainKeyPasses(VariantSegments(tenantId, productId, variantId, unique, filename));
  }

  /** Keys of different tenants, or products, never coincide. */
  lemma KeyTellsOwner(t1: string, p1: string, u1: string, f1: Option<string>, t2: string, p2: string, u2: string,
                      f2: Option<string>)
    requires IsUuidLike(t1) && IsUuidLike(p1) && IsUnique(u1) && IsUuidLike(t2) && IsUuidLike(p2) && IsUnique(u2)
    requires ProductImageKey(t1, p1, u1, f1) == ProductImageKey(t2, p2, u2, f2)
    ensures t1 == t2 && p1 == p2 && u1 == u2 && SanitizeFilename(f1) == SanitizeFilename(f2)
  {
    ProductKeyPasses(t1, p1, u1, f1);
    ProductKeyPasses(t2, p2, u2, f2);
    var a, b := ProductSegments(t1, p1, u1, f1), ProductSegments(t2, p2, u2, f2);
    assert a[1] == b[1] && a[3] == b[3] && a[4] == b[4];
    assert u1 == a[4][..8] && u2 == b[4][..8] && SanitizeFilename(f1) == a[4][9..] && SanitizeFilename(f2) == b[4][9..];
  }

  // ---- what the check lets through ----

  lemma PairPresent(s: string, c: char)
    ensures Contains(s, [c, c]) <==> exists i :: 0 <= i < |s| - 1 && s[i] == c && s[i + 1] == c
  {
    if Contains(s, [c, c]) {
      var i :| 0 <= i <= |s| && [c, c] <= s[i..];
      assert s[i..][0] == s[i] && s[i..][1] == s[i + 1];
    }
    forall i | 0 <= i < |s| - 1 && s[i] == c && s[i + 1] == c ensures Contains(s, [c, c]) {
      assert [c, c] <= s[i..];
    }
  }

  /** The tenant is what stands between the first two slashes. */
  lemma SecondSegment(key: string, tenant: string, rest: string)
    requires key == "tenants/" + tenant + rest && NoSlash(tenant) && (rest == "" || rest[0] == '/')
    ensures |Split(key)| >= 2 && Split(key)[1] == tenant
  {
    assert key == "tenants" + ("/" + tenant + rest);
    SplitSkips("tenants", "/" + tenant + rest);
    assert ("/" + tenant + rest)[1..] == tenant + rest;
    SplitSkips(tenant, rest);
    assert tenant + "" == tenant;
  }

  /** A key is let through if and only if it stands under `tenants/`, with at least three characters for the tenant, and
    * holds no `..`, no `//`, no backslash, no NUL and no colon. A key with one of these, or a leading slash, is a bad
    * path, and every other refusal is a bad key. */
  lemma PassesIff(key: string, tenant: string, rest: string)
    requires "tenants/" <= key ==>
               key == "tenants/" + tenant + rest && NoSlash(tenant) && (rest == "" || rest[0] == '/')
    ensures var suspicious :=
              || (exists i :: 0 <= i < |key| - 1 && key[i] == '.' && key[i + 1] == '.')
              || (exists i :: 0 <= i < |key| - 1 && key[i] == '/' && key[i + 1] == '/')
              || '\\' in key || '\0' in key || ':' in key;
            && (CheckKey(key).Ok? <==> "tenants/" <= key && |tenant| >= 3 && !suspicious)
            && (CheckKey(key) == Err(INVALID_STORAGE_PATH) <==> suspicious || (key != "" && key[0] == '/'))
  {
    PairPresent(key, '.');
    PairPresent(key, '/');
    assert ['.', '.'] == ".." && ['/', '/'] == "//";
    assert "/" <= key <==> key != "" && key[0] == '/';
    if "tenants/" <= key {
      assert key[0] == 't';
      SecondSegment(key, tenant, rest);
    }
  }
}
