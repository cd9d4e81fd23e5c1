/** The grammar of storage keys: which class a file path belongs to, and which directories a
    volume of a class may hold. The source's anchored patterns are read segment by segment. */
module StorageKeys {
  import opened Wrappers
  import opened Text
  import opened Tar

  datatype PathClass = Staging | Publication | Covers | Health | Scratch

  /** The classes that are archived. */
  type ArchiveClass = c: PathClass | c.Staging? || c.Publication? || c.Covers? witness Staging

  const SENTINEL := ["health", "publication", "readiness-v1"]
  const MAXIMUM_GENERATION := 2_147_483_647

  predicate IsUuid(s: string) {
    && |s| == 36
    && forall k | 0 <= k < 36 :: if k == 8 || k == 13 || k == 18 || k == 23 then s[k] == '-' else IsHexDigit(s[k])
  }

  predicate IsWebp(s: string) {
    |s| == 41 && IsUuid(s[..36]) && s[36..] == ".webp"
  }

  predicate IsGeneration(s: string) {
    s == "0" || (1 <= |s| <= 10 && s[0] != '0' && AllDigits(s, 10))
  }

  predicate IsDerivedClass(s: string) {
    s == "prose-images" || s == "comic-pages" || s == "cover-suggestions"
  }

  /** The segment after the first `generations` directory below the root, if it is not empty. */
  function GenerationText(p: seq<string>, i: nat): Option<string>
    requires 1 <= i
    decreases |p| - i
  {
    if i + 1 >= |p| then None
    else if p[i] == "generations" && p[i + 1] != "" then Some(p[i + 1])
    else GenerationText(p, i + 1)
  }

  /** Consulted only where a pattern has already shown the generation to be a decimal number. */
  predicate HasBoundedGeneration(p: seq<string>) {
    match GenerationText(p, 1)
    case None => true
    case Some(t) => AllDigits(t, 10) && Value(t, 10) <= MAXIMUM_GENERATION
  }

  predicate IsPublicationFile(p: seq<string>) {
    && |p| >= 5 && p[0] == "titles" && IsUuid(p[1]) && p[2] == "revisions" && IsUuid(p[3])
    && (|| (|p| == 5 && p[4] == "original")
        || (|p| == 8 && p[4] == "derived" && p[5] == "v1" && IsDerivedClass(p[6]) && IsWebp(p[7]))
        || (|p| == 10 && p[4] == "derived" && p[5] == "v1" && p[6] == "generations"
            && IsGeneration(p[7]) && IsDerivedClass(p[8]) && IsWebp(p[9])))
  }

  function ClassifySegments(p: seq<string>): Option<PathClass> {
    if |p| == 3 && p[0] == "staging" && p[1] == "uploads" && IsUuid(p[2]) then Some(Staging)
    else if p == SENTINEL then Some(Publication)
    else if IsPublicationFile(p) && HasBoundedGeneration(p) then Some(Publication)
    else if |p| == 4 && p[0] == "titles" && IsUuid(p[1]) && p[2] == "covers" && IsWebp(p[3]) then Some(Covers)
    else if |p| == 3 && p[0] == "health" && p[1] == "probes" && IsUuid(p[2]) then Some(Health)
    else if |p| == 2 && p[0] == ".verified-downloads" && IsUuid(p[1]) then Some(Scratch)
    else None
  }

  /** The class of a file path, or None where the source throws. */
  function ClassifyLegacyStoragePath(key: string): Option<PathClass> {
    ClassifySegments(Split(key, '/'))
  }

  predicate IsPublicationDirectory(p: seq<string>) {
    && 1 <= |p| <= 9 && p[0] == "titles"
    && (|p| > 1 ==> IsUuid(p[1]))
    && (|p| > 2 ==> p[2] == "revisions")
    && (|p| > 3 ==> IsUuid(p[3]))
    && (|p| > 4 ==> p[4] == "derived")
    && (|p| > 5 ==> p[5] == "v1")
    && (|p| > 6 ==> p[6] == "generations" || (IsDerivedClass(p[6]) && |p| == 7))
    && (|p| > 7 ==> IsGeneration(p[7]))
    && (|p| > 8 ==> IsDerivedClass(p[8]))
  }

  predicate IsAllowedDirectory(storageClass: ArchiveClass, p: seq<string>) {
    match storageClass
    case Staging =>
      p == ["staging"] || p == ["staging", "uploads"] || p == ["health"] || p == ["health", "probes"]
    case Publication =>
      p == ["health"] || p == ["health", "publication"] || IsPublicationDirectory(p)
    case Covers =>
      && 1 <= |p| <= 3 && p[0] == "titles"
      && (|p| > 1 ==> IsUuid(p[1]))
      && (|p| > 2 ==> p[2] == "covers")
  }

  /** What a scan of a volume of the class does with a file: keeps it, or skips a health probe. */
  predicate BelongsTo(storageClass: ArchiveClass, p: seq<string>) {
    || ClassifySegments(p) == Some(storageClass)
    || (storageClass == Staging && ClassifySegments(p) == Some(Health))
  }

  // ---------- directories above legal keys ----------

  /** Every directory above a file that may stand in a volume of the class may stand there too. */
  lemma AncestorAllowed(storageClass: ArchiveClass, p: seq<string>, i: nat)
    requires BelongsTo(storageClass, p) && 1 <= i < |p|
    ensures IsAllowedDirectory(storageClass, p[..i]) && HasBoundedGeneration(p[..i])
  {
    AncestorBounded(storageClass, p, i);
    if i == 1 {
      assert p[..1] == [p[0]];
    } else if i == 2 {
      assert p[..2] == [p[0], p[1]];
    }
  }

  lemma AncestorBounded(storageClass: ArchiveClass, p: seq<string>, i: nat)
    requires BelongsTo(storageClass, p) && 1 <= i < |p|
    ensures HasBoundedGeneration(p[..i])
  {
    if |p| == 10 {
      NoGeneration(p, 1, 6);
      if i <= 7 {
        NoGeneration(p[..i], 1, i);
      } else {
        NoGeneration(p[..i], 1, 6);
      }
    } else {
      NoGeneration(p[..i], 1, i);
    }
  }

  lemma {:induction false} NoGeneration(p: seq<string>, i: nat, j: nat)
    requires 1 <= i <= j
    requires forall k | i <= k < j && k + 1 < |p| :: p[k] != "generations"
    ensures GenerationText(p, i) == GenerationText(p, j)
    decreases j - i
  {
    if i >= j {
    } else {
      NoGeneration(p, i + 1, j);
    }
  }

  /** A directory of a class is never itself the path of a file of that class. */
  lemma DirectoryIsNotFile(storageClass: ArchiveClass, p: seq<string>)
    requires IsAllowedDirectory(storageClass, p)
    ensures !BelongsTo(storageClass, p)
  {
  }

  /** The directories above a path: the path cut at each of its slashes. */
  function Ancestors(key: string): set<string> {
    set i | 0 <= i < |key| && key[i] == '/' :: key[..i]
  }

  lemma {:induction false} SplitAncestor(key: string, i: nat) returns (n: nat)
    requires i < |key| && key[i] == '/'
    ensures 1 <= n < |Split(key, '/')| && Split(key[..i], '/') == Split(key, '/')[..n]
  {
    var rest := Split(key[1..], '/');
    if i == 0 {
      assert key[..0] == "";
      return 1;
    }
    assert key[1..][..i - 1] == key[..i][1..];
    n := SplitAncestor(key[1..], i - 1);
    if key[0] == '/' {
      n := n + 1;
    }
  }

  /** Every directory a restore creates for a legal key is one the scan of that class allows. */
  lemma KeyAncestorsAllowed(storageClass: ArchiveClass, key: string)
    requires BelongsTo(storageClass, Split(key, '/'))
    ensures forall d | d in Ancestors(key) ::
      IsAllowedDirectory(storageClass, Split(d, '/')) && HasBoundedGeneration(Split(d, '/'))
  {
    forall i | 0 <= i < |key| && key[i] == '/'
      ensures IsAllowedDirectory(storageClass, Split(key[..i], '/')) && HasBoundedGeneration(Split(key[..i], '/'))
    {
      var n := SplitAncestor(key, i);
      AncestorAllowed(storageClass, Split(key, '/'), n);
    }
  }

  /** No legal key of a class lies below another one, so restoring one never obstructs another. */
  lemma KeysDoNotNest(storageClass: ArchiveClass, a: string, b: string)
    requires BelongsTo(storageClass, Split(a, '/')) && BelongsTo(storageClass, Split(b, '/'))
    ensures a !in Ancestors(b)
  {
    KeyAncestorsAllowed(storageClass, b);
    if a in Ancestors(b) {
      DirectoryIsNotFile(storageClass, Split(a, '/'));
    }
  }

  // ---------- legal keys fit the header ----------

  predicate SafeSegment(s: string) {
    s != "" && s != "." && s != ".." && Printable(s) && '\\' !in s && '/' !in s && ',' !in s
  }

  lemma UuidIsSafe(s: string)
    requires IsUuid(s)
    ensures SafeSegment(s)
  {
  }

  lemma WebpIsSafe(s: string)
    requires IsWebp(s)
    ensures SafeSegment(s)
  {
    UuidIsSafe(s[..36]);
    assert s == s[..36] + ".webp";
  }

  lemma GenerationIsSafe(s: string)
    requires IsGeneration(s)
    ensures SafeSegment(s) && |s| <= 10
  {
    forall k | 0 <= k < |s| ensures '0' <= s[k] <= '9' {
      assert s != "0" ==> IsDigit(s[k], 10);
    }
  }

  lemma DerivedIsSafe(s: string)
    requires IsDerivedClass(s)
    ensures SafeSegment(s) && |s| <= 17
  {
  }

  lemma {:induction false} JoinAppend(parts: seq<string>, last: string, c: char)
    requires parts != []
    ensures Join(parts + [last], c) == Join(parts, c) + [c] + last
  {
    if |parts| == 1 {
      assert (parts + [last])[1..] == [last];
    } else {
      JoinAppend(parts[1..], last, c);
      assert (parts + [last])[1..] == parts[1..] + [last];
    }
  }

  /** Joining safe segments gives a safe key that does not end in a slash. */
  lemma {:induction false} SafeJoin(p: seq<string>)
    requires p != [] && forall k | 0 <= k < |p| :: SafeSegment(p[k])
    ensures SafeKey(Join(p, '/')) && ',' !in Join(p, '/') && Join(p, '/')[|Join(p, '/')| - 1] != '/'
  {
    var n := |p| - 1;
    if n == 0 {
    } else {
      SafeJoin(p[..n]);
      assert p == p[..n] + [p[n]];
      JoinAppend(p[..n], p[n], '/');
    }
  }

  /** How long a directory of each depth in a publication volume can be. */
  const DIRECTORY_LENGTHS := [6, 43, 53, 90, 98, 101, 119, 124, 142]

  lemma {:induction false} DirectoryLength(p: seq<string>)
    requires IsPublicationDirectory(p)
    ensures |Join(p, '/')| <= DIRECTORY_LENGTHS[|p| - 1]
    ensures |p| == 7 && p[6] == "generations" ==> |Join(p, '/')| <= 113
    decreases |p|
  {
    var n := |p| - 1;
    if n == 0 {
    } else {
      DirectoryLength(p[..n]);
      assert p == p[..n] + [p[n]];
      JoinAppend(p[..n], p[n], '/');
      if n == 7 {
        GenerationIsSafe(p[n]);
      }
    }
  }

  /** A directory of each depth, with the longest segments below `generations`. */
  function DeepDirectory(depth: nat): seq<string>
    requires 1 <= depth <= 9
  {
    var uuid := seq(36, k => if k == 8 || k == 13 || k == 18 || k == 23 then '-' else '0');
    var six := ["titles", uuid, "revisions", uuid, "derived", "v1"];
    (six + ["generations", Digits(1_000_000_000, 10), "cover-suggestions"])[..depth]
  }

  lemma TenDigits()
    ensures |Digits(1_000_000_000, 10)| == 10 && IsGeneration(Digits(1_000_000_000, 10))
    ensures Value(Digits(1_000_000_000, 10), 10) <= MAXIMUM_GENERATION
  {
    assert Pow(10, 3) == 1_000 && Pow(10, 6) == 1_000_000 && Pow(10, 9) == 1_000_000_000;
    DigitsLength(1_000_000_000, 10, 9);
    DigitsLength(1_000_000_000, 10, 10);
    ValueDigits(1_000_000_000, 10);
  }

  lemma {:induction false} DeepDirectoryLength(depth: nat)
    requires 1 <= depth <= 9
    ensures IsPublicationDirectory(DeepDirectory(depth))
    ensures |Join(DeepDirectory(depth), '/')| == if depth == 7 then 113 else DIRECTORY_LENGTHS[depth - 1]
  {
    TenDigits();
    hide Digits, Value, Pow;
    var p := DeepDirectory(depth);
    if depth <= 1 {
    } else {
      DeepDirectoryLength(depth - 1);
      assert p == DeepDirectory(depth - 1) + [p[depth - 1]];
      JoinAppend(DeepDirectory(depth - 1), p[depth - 1], '/');
    }
  }

  lemma DeepGeneration(depth: nat)
    requires 1 <= depth <= 9
    ensures HasBoundedGeneration(DeepDirectory(depth))
  {
    TenDigits();
    hide Digits, Value, Pow;
    var p := DeepDirectory(depth);
    if depth <= 6 {
      NoGeneration(p, 1, depth);
    } else {
      NoGeneration(p, 1, 6);
    }
  }

  /** The bound is reached at every depth. */
  lemma DirectoryLengthReached(depth: nat) returns (p: seq<string>)
    requires 1 <= depth <= 9
    ensures |p| == depth && IsPublicationDirectory(p) && HasBoundedGeneration(p)
    ensures |Join(p, '/')| == DIRECTORY_LENGTHS[depth - 1]
  {
    if depth == 7 {
      DeepDirectoryLength(6);
      p := DeepDirectory(6) + ["cover-suggestions"];
      JoinAppend(DeepDirectory(6), "cover-suggestions", '/');
      NoGeneration(p, 1, 7);
    } else {
      DeepDirectoryLength(depth);
      DeepGeneration(depth);
      p := DeepDirectory(depth);
    }
  }

  lemma DirectoryIsSafe(p: seq<string>)
    requires IsPublicationDirectory(p)
    ensures forall k | 0 <= k < |p| :: SafeSegment(p[k])
  {
    forall k | 0 <= k < |p| ensures SafeSegment(p[k]) {
      if k == 1 || k == 3 {
        UuidIsSafe(p[k]);
      } else if k == 7 {
        GenerationIsSafe(p[k]);
      } else if IsDerivedClass(p[k]) {
        DerivedIsSafe(p[k]);
      }
    }
  }

  /** A file name of at most 100 bytes under a directory of at most 155 is encodable. */
  lemma FileEncodable(p: seq<string>)
    requires |p| >= 2 && forall k | 0 <= k < |p| :: SafeSegment(p[k])
    requires |Join(p[..|p| - 1], '/')| <= 155 && |p[|p| - 1]| <= 100
    ensures Encodable(Join(p, '/')) && Join(p, '/')[|Join(p, '/')| - 1] != '/'
  {
    SafeJoin(p);
    var n := |p| - 1;
    var directory := Join(p[..n], '/');
    SafeJoin(p[..n]);
    assert p == p[..n] + [p[n]];
    JoinAppend(p[..n], p[n], '/');
    assert SplitsAt(Join(p, '/'), |directory|);
  }

  lemma PublicationSafe(p: seq<string>)
    requires IsPublicationFile(p) && HasBoundedGeneration(p)
    ensures forall k | 0 <= k < |p| :: SafeSegment(p[k])
    ensures |Join(p[..|p| - 1], '/')| <= 155 && |p[|p| - 1]| <= 100
  {
    var n := |p| - 1;
    assert IsPublicationDirectory(p[..n]);
    DirectoryIsSafe(p[..n]);
    DirectoryLength(p[..n]);
    if p[n] != "original" {
      WebpIsSafe(p[n]);
    }
    hide SafeSegment, IsUuid, IsPublicationDirectory;
    assert forall k | 0 <= k < n :: p[k] == p[..n][k];
  }

  lemma CoverSafe(p: seq<string>)
    requires |p| == 4 && p[0] == "titles" && IsUuid(p[1]) && p[2] == "covers" && IsWebp(p[3])
    ensures forall k | 0 <= k < |p| :: SafeSegment(p[k])
    ensures |Join(p[..|p| - 1], '/')| <= 155 && |p[|p| - 1]| <= 100
  {
    UuidIsSafe(p[1]);
    WebpIsSafe(p[3]);
    assert p[..3] == [p[0], p[1]] + [p[2]];
    JoinAppend([p[0], p[1]], p[2], '/');
  }

  lemma StagingSafe(p: seq<string>)
    requires |p| == 3 && p[0] == "staging" && p[1] == "uploads" && IsUuid(p[2])
    ensures forall k | 0 <= k < |p| :: SafeSegment(p[k])
    ensures |Join(p[..|p| - 1], '/')| <= 155 && |p[|p| - 1]| <= 100
  {
    UuidIsSafe(p[2]);
    assert p[..2] == [p[0], p[1]];
  }

  /** Every segment of a key of an archived class is safe, and its two header parts fit. */
  lemma LegalSegments(storageClass: ArchiveClass, p: seq<string>)
    requires ClassifySegments(p) == Some(storageClass)
    ensures |p| >= 2 && forall k | 0 <= k < |p| :: SafeSegment(p[k])
    ensures |Join(p[..|p| - 1], '/')| <= 155 && |p[|p| - 1]| <= 100
  {
    if p == SENTINEL {
      assert p[..2] == ["health", "publication"];
    } else {
      hide SafeSegment;
      match storageClass
      case Staging => StagingSafe(p);
      case Publication => PublicationSafe(p);
      case Covers => CoverSafe(p);
    }
  }

  /** Every key the classifier admits to an archived class can be stored, and reads back. */
  lemma LegalKeyEncodable(storageClass: ArchiveClass, key: string)
    requires ClassifyLegacyStoragePath(key) == Some(storageClass)
    ensures Encodable(key) && key[|key| - 1] != '/'
  {
    hide ClassifySegments, SafeSegment, Encodable, Split, Join;
    LegalSegments(storageClass, Split(key, '/'));
    JoinSplit(key, '/');
    FileEncodable(Split(key, '/'));
  }
}
