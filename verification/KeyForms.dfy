/** The grammar of storage keys as forms of text: over all identifiers, which keys each class has, and
    that directories are exactly what stands above files. */
module KeyForms {
  import opened Wrappers
  import opened Text
  import opened StorageKeys

  // ---------- the parts of a key ----------

  predicate IsHex(s: string, n: nat) {
    |s| == n && forall k | 0 <= k < n :: IsHexDigit(s[k])
  }

  predicate AreUuidParts(a: string, b: string, c: string, d: string, e: string) {
    IsHex(a, 8) && IsHex(b, 4) && IsHex(c, 4) && IsHex(d, 4) && IsHex(e, 12)
  }

  function Dashed(a: string, b: string, c: string, d: string, e: string): string {
    a + "-" + b + "-" + c + "-" + d + "-" + e
  }

  /** An identifier is five groups of 8, 4, 4, 4 and 12 hexadecimal digits with dashes between. */
  lemma UuidForm(s: string)
    ensures IsUuid(s) <==> exists a, b, c, d, e :: AreUuidParts(a, b, c, d, e) && s == Dashed(a, b, c, d, e)
  {
    if IsUuid(s) {
      var a, b, c, d, e := s[..8], s[9..13], s[14..18], s[19..23], s[24..];
      assert s == Dashed(a, b, c, d, e);
      assert AreUuidParts(a, b, c, d, e);
    }
  }

  /** A generation is the decimal form of a number of at most ten digits. */
  lemma GenerationForm(s: string)
    ensures IsGeneration(s) <==> exists n: nat :: n < Pow(10, 10) && s == Digits(n, 10)
  {
    hide Pow;
    if IsGeneration(s) {
      ZeroDigit();
      DigitsValue(s, 10);
      DigitsLength(Value(s, 10), 10, 10);
    }
    if exists n: nat :: n < Pow(10, 10) && s == Digits(n, 10) {
      var n: nat :| n < Pow(10, 10) && s == Digits(n, 10);
      DigitsLength(n, 10, 10);
    }
  }

  lemma ZeroDigit()
    ensures AllDigits("0", 10)
  {
  }

  // ---------- the keys of each class ----------

  lemma KeySplits(key: string, p: seq<string>)
    requires p != [] && forall k | 0 <= k < |p| :: '/' !in p[k]
    ensures key == Join(p, '/') <==> Split(key, '/') == p
  {
    JoinSplit(key, '/');
    SplitJoin(p, '/');
  }

  lemma UuidHasNoSlash(s: string)
    ensures IsUuid(s) ==> '/' !in s && '/' !in s + ".webp"
    ensures IsUuid(s) ==> IsWebp(s + ".webp")
    ensures IsWebp(s) ==> IsUuid(s[..36]) && s == s[..36] + ".webp"
  {
    if IsUuid(s) {
      UuidIsSafe(s);
      assert (s + ".webp")[..36] == s;
    }
  }

  lemma StagingForm(key: string)
    ensures ClassifyLegacyStoragePath(key) == Some(Staging) <==>
      exists id :: IsUuid(id) && key == Join(["staging", "uploads", id], '/')
  {
    hide Split, Join, IsUuid;
    JoinSplit(key, '/');
    var p := Split(key, '/');
    if ClassifySegments(p) == Some(Staging) {
      assert p == ["staging", "uploads", p[2]];
    }
    forall id | IsUuid(id) && key == Join(["staging", "uploads", id], '/')
      ensures ClassifyLegacyStoragePath(key) == Some(Staging)
    {
      UuidHasNoSlash(id);
      KeySplits(key, ["staging", "uploads", id]);
    }
  }

  lemma HealthForm(key: string)
    ensures ClassifyLegacyStoragePath(key) == Some(Health) <==>
      exists id :: IsUuid(id) && key == Join(["health", "probes", id], '/')
  {
    hide Split, Join, IsUuid;
    JoinSplit(key, '/');
    var p := Split(key, '/');
    if ClassifySegments(p) == Some(Health) {
      assert p == ["health", "probes", p[2]];
    }
    forall id | IsUuid(id) && key == Join(["health", "probes", id], '/')
      ensures ClassifyLegacyStoragePath(key) == Some(Health)
    {
      UuidHasNoSlash(id);
      KeySplits(key, ["health", "probes", id]);
    }
  }

  lemma ScratchForm(key: string)
    ensures ClassifyLegacyStoragePath(key) == Some(Scratch) <==>
      exists id :: IsUuid(id) && key == Join([".verified-downloads", id], '/')
  {
    hide Split, Join, IsUuid;
    JoinSplit(key, '/');
    var p := Split(key, '/');
    if ClassifySegments(p) == Some(Scratch) {
      assert p == [".verified-downloads", p[1]];
    }
    forall id | IsUuid(id) && key == Join([".verified-downloads", id], '/')
      ensures ClassifyLegacyStoragePath(key) == Some(Scratch)
    {
      UuidHasNoSlash(id);
      KeySplits(key, [".verified-downloads", id]);
    }
  }

  function Cover(title: string, id: string): seq<string> {
    ["titles", title, "covers", id + ".webp"]
  }

  lemma CoversForm(key: string)
    ensures ClassifyLegacyStoragePath(key) == Some(Covers) <==>
      exists title, id :: IsUuid(title) && IsUuid(id) && key == Join(Cover(title, id), '/')
  {
    hide Split, Join, IsUuid, IsWebp;
    JoinSplit(key, '/');
    var p := Split(key, '/');
    if ClassifySegments(p) == Some(Covers) {
      UuidHasNoSlash(p[3]);
      assert p == Cover(p[1], p[3][..36]);
    }
    forall title, id | IsUuid(title) && IsUuid(id) && key == Join(Cover(title, id), '/')
      ensures ClassifyLegacyStoragePath(key) == Some(Covers)
    {
      UuidHasNoSlash(title);
      UuidHasNoSlash(id);
      KeySplits(key, Cover(title, id));
    }
  }

  function Original(title: string, revision: string): seq<string> {
    ["titles", title, "revisions", revision, "original"]
  }

  function Derived(title: string, revision: string, kind: string, id: string): seq<string> {
    ["titles", title, "revisions", revision, "derived", "v1", kind, id + ".webp"]
  }

  function Generated(title: string, revision: string, n: nat, kind: string, id: string): seq<string> {
    ["titles", title, "revisions", revision, "derived", "v1", "generations", Digits(n, 10), kind, id + ".webp"]
  }

  predicate IsKind(s: string) {
    s in {"prose-images", "comic-pages", "cover-suggestions"}
  }

  /** The sentinel, an original, a derived image, or a derived image of a generation up to 2,147,483,647. */
  ghost predicate IsPublicationKey(key: string) {
    || key == "health/publication/readiness-v1"
    || (exists t, r :: IsUuid(t) && IsUuid(r) && key == Join(Original(t, r), '/'))
    || (exists t, r, kind, id ::
          IsUuid(t) && IsUuid(r) && IsKind(kind) && IsUuid(id) && key == Join(Derived(t, r, kind, id), '/'))
    || (exists t, r, n: nat, kind, id ::
          && IsUuid(t) && IsUuid(r) && n <= 2_147_483_647 && IsKind(kind) && IsUuid(id)
          && key == Join(Generated(t, r, n, kind, id), '/'))
  }

  lemma SentinelJoins()
    ensures Join(SENTINEL, '/') == "health/publication/readiness-v1"
    ensures Split("health/publication/readiness-v1", '/') == SENTINEL
  {
    hide Split, Join;
    var a, b, c := "health", "publication", "readiness-v1";
    assert '/' !in a && '/' !in b && '/' !in c;
    SplitNone(c, '/');
    SplitHead(b, c, '/');
    SplitHead(a, b + ['/'] + c, '/');
    var key := "health/publication/readiness-v1";
    assert a + ['/'] + (b + ['/'] + c) == key;
    assert Split(key, '/') == [a] + ([b] + [c]) == SENTINEL;
    JoinSplit(key, '/');
  }

  lemma OriginalIsLegal(t: string, r: string)
    requires IsUuid(t) && IsUuid(r)
    ensures ClassifyLegacyStoragePath(Join(Original(t, r), '/')) == Some(Publication)
  {
    hide Split, Join, IsUuid;
    UuidHasNoSlash(t);
    UuidHasNoSlash(r);
    KeySplits(Join(Original(t, r), '/'), Original(t, r));
    NoGeneration(Original(t, r), 1, 5);
  }

  lemma DerivedIsLegal(t: string, r: string, kind: string, id: string)
    requires IsUuid(t) && IsUuid(r) && IsKind(kind) && IsUuid(id)
    ensures ClassifyLegacyStoragePath(Join(Derived(t, r, kind, id), '/')) == Some(Publication)
  {
    UuidHasNoSlash(t);
    UuidHasNoSlash(r);
    UuidHasNoSlash(id);
    DerivedIsSafe(kind);
    var p := Derived(t, r, kind, id);
    assert p[1] != "generations" && p[3] != "generations" && p[7] != "generations";
    hide Split, Join, IsUuid, IsWebp;
    KeySplits(Join(p, '/'), p);
    NoGeneration(p, 1, 8);
  }

  lemma GenerationAt(p: seq<string>, n: nat)
    requires |p| == 10 && p[6] == "generations" && p[7] == Digits(n, 10) && IsUuid(p[1]) && IsUuid(p[3])
    requires p[2] == "revisions" && p[4] == "derived" && p[5] == "v1"
    ensures HasBoundedGeneration(p) <==> n <= 2_147_483_647
  {
    hide Digits, Value;
    assert p[1] != "generations" && p[3] != "generations";
    ValueDigits(n, 10);
    NoGeneration(p, 1, 6);
  }

  lemma GenerationDigits(n: nat)
    requires n <= 2_147_483_647
    ensures IsGeneration(Digits(n, 10))
  {
    assert Pow(10, 3) == 1_000 && Pow(10, 6) == 1_000_000 && Pow(10, 9) == 1_000_000_000;
    assert Pow(10, 10) == 10_000_000_000;
    hide Digits;
    GenerationForm(Digits(n, 10));
  }

  lemma GeneratedIsLegal(t: string, r: string, n: nat, kind: string, id: string)
    requires IsUuid(t) && IsUuid(r) && n <= 2_147_483_647 && IsKind(kind) && IsUuid(id)
    ensures ClassifyLegacyStoragePath(Join(Generated(t, r, n, kind, id), '/')) == Some(Publication)
  {
    UuidHasNoSlash(t);
    UuidHasNoSlash(r);
    UuidHasNoSlash(id);
    DerivedIsSafe(kind);
    GenerationDigits(n);
    GenerationIsSafe(Digits(n, 10));
    hide Split, Join, IsUuid, IsWebp, Digits, Value, IsGeneration, HasBoundedGeneration;
    var p := Generated(t, r, n, kind, id);
    KeySplits(Join(p, '/'), p);
    GenerationAt(p, n);
  }

  /** The publication class has exactly those keys. */
  lemma PublicationForm(key: string)
    ensures ClassifyLegacyStoragePath(key) == Some(Publication) <==> IsPublicationKey(key)
  {
    if ClassifyLegacyStoragePath(key) == Some(Publication) {
      PublicationHasForm(key);
    }
    if IsPublicationKey(key) {
      FormIsPublication(key);
    }
  }

  lemma FormIsPublication(key: string)
    requires IsPublicationKey(key)
    ensures ClassifyLegacyStoragePath(key) == Some(Publication)
  {
    hide ClassifySegments, Join, Split, IsUuid, Original, Derived, Generated;
    if key == "health/publication/readiness-v1" {
      SentinelIsLegal();
    } else if exists t, r :: IsUuid(t) && IsUuid(r) && key == Join(Original(t, r), '/') {
      var t, r :| IsUuid(t) && IsUuid(r) && key == Join(Original(t, r), '/');
      OriginalIsLegal(t, r);
    } else if exists t, r, kind, id ::
        IsUuid(t) && IsUuid(r) && IsKind(kind) && IsUuid(id) && key == Join(Derived(t, r, kind, id), '/') {
      var t, r, kind, id :|
        IsUuid(t) && IsUuid(r) && IsKind(kind) && IsUuid(id) && key == Join(Derived(t, r, kind, id), '/');
      DerivedIsLegal(t, r, kind, id);
    } else {
      var t, r, n: nat, kind, id :|
        && IsUuid(t) && IsUuid(r) && n <= 2_147_483_647 && IsKind(kind) && IsUuid(id)
        && key == Join(Generated(t, r, n, kind, id), '/');
      GeneratedIsLegal(t, r, n, kind, id);
    }
  }

  lemma SentinelIsLegal()
    ensures ClassifyLegacyStoragePath("health/publication/readiness-v1") == Some(Publication)
  {
    hide Split;
    SentinelJoins();
  }

  lemma PublicationHasForm(key: string)
    requires ClassifyLegacyStoragePath(key) == Some(Publication)
    ensures IsPublicationKey(key)
  {
    hide Split, Join, IsUuid, IsWebp, IsGeneration, HasBoundedGeneration, Digits, Value, Pow;
    JoinSplit(key, '/');
    var p := Split(key, '/');
    if p == SENTINEL {
      SentinelJoins();
    } else if |p| == 5 {
      assert p == Original(p[1], p[3]);
    } else if |p| == 8 {
      UuidHasNoSlash(p[7]);
      assert p == Derived(p[1], p[3], p[6], p[7][..36]);
    } else {
      UuidHasNoSlash(p[9]);
      GenerationForm(p[7]);
      var n: nat :| n < Pow(10, 10) && p[7] == Digits(n, 10);
      GenerationAt(p, n);
      assert p == Generated(p[1], p[3], n, p[8], p[9][..36]);
    }
  }

  // ---------- directories ----------

  /** The directories above a key are exactly the proper beginnings of its segments. */
  lemma AncestorsAreBeginnings(key: string, d: string)
    ensures d in Ancestors(key) <==>
      exists n :: 1 <= n < |Split(key, '/')| && Split(d, '/') == Split(key, '/')[..n]
  {
    hide Split;
    if d in Ancestors(key) {
      var i :| 0 <= i < |key| && key[i] == '/' && d == key[..i];
      var n := SplitAncestor(key, i);
    }
    forall n | 1 <= n < |Split(key, '/')| && Split(d, '/') == Split(key, '/')[..n] ensures d in Ancestors(key) {
      JoinSplit(key, '/');
      JoinSplit(d, '/');
      JoinCut(Split(key, '/'), n, '/');
      var rest := Join(Split(key, '/')[n..], '/');
      assert key == d + ['/'] + rest;
      assert key[|d|] == '/' && key[..|d|] == d;
    }
  }

  lemma {:induction false} JoinCut(p: seq<string>, n: nat, c: char)
    requires 1 <= n < |p|
    ensures Join(p, c) == Join(p[..n], c) + [c] + Join(p[n..], c)
  {
    if n == 1 {
      assert p[..1] == [p[0]];
    } else {
      JoinCut(p[1..], n - 1, c);
      assert p[..n][1..] == p[1..][..n - 1] && p[1..][n - 1..] == p[n..];
      assert Join(p[..n], c) == p[0] + [c] + Join(p[..n][1..], c);
    }
  }

  const SOME_ID := "00000000-0000-0000-0000-000000000000"

  lemma SomeIdIsUuid()
    ensures IsUuid(SOME_ID) && IsWebp(SOME_ID + ".webp")
  {
    UuidHasNoSlash(SOME_ID);
  }

  /** Every directory a class allows has room for a file of that class: one whose segments begin with it. */
  lemma DirectoryHasFile(storageClass: ArchiveClass, p: seq<string>) returns (file: seq<string>)
    requires IsAllowedDirectory(storageClass, p) && HasBoundedGeneration(p)
    ensures BelongsTo(storageClass, file) && |p| < |file| && file[..|p|] == p
  {
    SomeIdIsUuid();
    hide IsUuid, IsWebp;
    match storageClass
    case Staging =>
      file := [p[0], if p[0] == "staging" then "uploads" else "probes", SOME_ID];
    case Covers =>
      file := ["titles", if |p| > 1 then p[1] else SOME_ID, "covers", SOME_ID + ".webp"];
    case Publication =>
      if p[0] == "health" {
        file := SENTINEL;
      } else {
        file := PublicationFileIn(p);
      }
  }

  /** A generation directory that is bounded, or none. */
  lemma PublicationFileIn(p: seq<string>) returns (file: seq<string>)
    requires IsPublicationDirectory(p) && HasBoundedGeneration(p)
    ensures ClassifySegments(file) == Some(Publication) && |p| < |file| && file[..|p|] == p
  {
    SomeIdIsUuid();
    ZeroDigit();
    var t, r := if |p| > 1 then p[1] else SOME_ID, if |p| > 3 then p[3] else SOME_ID;
    var webp := SOME_ID + ".webp";
    UuidIsNoWord(t);
    UuidIsNoWord(r);
    hide IsUuid, IsWebp, Value;
    if |p| > 6 && p[6] == "generations" {
      var n, kind := if |p| > 7 then p[7] else "0", if |p| > 8 then p[8] else "comic-pages";
      file := ["titles", t, "revisions", r, "derived", "v1", "generations", n, kind, webp];
      NoGeneration(file, 1, 6);
      if |p| > 7 {
        NoGeneration(p, 1, 6);
      } else {
        ZeroValue();
      }
    } else {
      file := ["titles", t, "revisions", r, "derived", "v1", if |p| > 6 then p[6] else "comic-pages", webp];
      WebpIsNoWord(webp);
      NoGeneration(file, 1, 8);
    }
  }

  lemma UuidIsNoWord(s: string)
    requires IsUuid(s)
    ensures s != "generations"
  {
  }

  lemma WebpIsNoWord(s: string)
    requires IsWebp(s)
    ensures s != "generations"
  {
  }

  lemma ZeroValue()
    ensures AllDigits("0", 10) && Value("0", 10) == 0
  {
    assert Digits(0, 10) == "0";
    ValueDigits(0, 10);
  }
}
