/** A volume captured, its archive handed over, and restored: when this succeeds, in terms of the volume. */
module CaptureRestore {
  import opened Wrappers
  import opened Text
  import opened Tar
  import opened StreamReader
  import opened Archive
  import opened StorageKeys
  import opened Manifest
  import opened Volume
  import opened Backup

  // ---------- the limits, as a volume has them ----------

  lemma LeastIn(keys: set<string>)
    requires keys != {}
    ensures exists least :: least in keys && forall k | k in keys :: k == least || Less(least, k)
  {
    var least := LeastExists(keys);
  }

  /** The keys of a set in ascending order. */
  ghost function Listing(keys: set<string>): seq<string> {
    if keys == {} then []
    else
      LeastIn(keys);
      var least :| least in keys && forall k | k in keys :: k == least || Less(least, k);
      [least] + Listing(keys - {least})
  }

  lemma {:induction false} ListingAscends(keys: set<string>)
    ensures Ascending(Listing(keys)) && Keys(Listing(keys)) == keys
  {
    if keys == {} {
      KeysEmpty([]);
    } else {
      var order := Listing(keys);
      var least, rest := order[0], order[1..];
      ListingFront(keys);
      ListingAscends(keys - {least});
      hide Less, Listing;
      assert order == [least] + rest;
      KeysFrontOf(least, rest);
      assert forall k | k in rest :: k in Keys(rest);
      assert rest != [] ==> rest[0] in rest;
    }
  }

  lemma ListingFront(keys: set<string>)
    requires keys != {}
    ensures var order := Listing(keys);
      && order != [] && order[0] in keys && order[1..] == Listing(keys - {order[0]})
      && forall k | k in keys :: k == order[0] || Less(order[0], k)
  {
    LeastIn(keys);
  }

  lemma KeysFrontOf(first: string, rest: seq<string>)
    ensures Keys([first] + rest) == {first} + Keys(rest)
  {
    forall k ensures k in [first] + rest <==> k == first || k in rest {
    }
  }

  /** What the health probes of a volume hold together. */
  ghost function ProbeBytes(files: FileMap): nat {
    var probes := Listing(KeysOf(files, Health));
    ListingAscends(KeysOf(files, Health));
    assert forall k | k in probes :: k in Keys(probes);
    FilesSize(files, probes)
  }

  /** A volume with at most a million files of the class, and safe numbers of probes and probe bytes. */
  ghost predicate WithinReach(files: FileMap, storageClass: ArchiveClass) {
    && |KeysOf(files, storageClass)| <= MAXIMUM_ENTRIES
    && IsSafe(|KeysOf(files, Health)|) && IsSafe(ProbeBytes(files))
  }

  /** The manifest of a capture is within its limits exactly when the volume is. */
  lemma LimitsAreTheVolumes(files: FileMap, storageClass: ArchiveClass, manifest: Manifest, archive: seq<Byte>,
                            probes: seq<string>, sha: Sha)
    requires IsCapture(files, storageClass, manifest, archive, probes, sha)
    ensures |manifest.entries| == |KeysOf(files, storageClass)|
    ensures manifest.health == Ignored(|KeysOf(files, Health)|, ProbeBytes(files))
    ensures WithinLimits(manifest) <==> WithinReach(files, storageClass)
  {
    hide Accepts, Files, Less, ClassifyLegacyStoragePath, AreEntriesOf;
    AscendingCount(EntryKeys(manifest.entries));
    AscendingCount(probes);
    ListingAscends(KeysOf(files, Health));
    AscendingUnique(probes, Listing(KeysOf(files, Health)));
  }

  lemma {:induction false} AscendingCount(keys: seq<string>)
    requires Ascending(keys)
    ensures |Keys(keys)| == |keys|
  {
    hide Less;
    KeysEmpty(keys);
    if keys == [] {
    } else {
      SetWithoutLast(keys);
      AscendingCount(keys[..|keys| - 1]);
      assert keys[|keys| - 1] in Keys(keys);
    }
  }

  // ---------- capture, transport and restore ----------

  /** A transport hands over the same bytes in chunks of its own, none of them empty. */
  ghost predicate Transports(cut: FileReads) {
    ReadsContent(cut) && forall content :: NonEmptyChunks(cut(content))
  }

  /** What is captured is restored into an empty volume, exactly the files of the class, unless the
      volume is over the limits of a manifest; then the destination stays empty. */
  method CaptureThenRestore(source: StorageVolume, destination: StorageVolume, storageClass: ArchiveClass,
                            chunked: FileReads, cut: FileReads, sha: Sha)
      returns (captured: Result<(Manifest, seq<Byte>), ArchiveError>, restored: Result<Manifest, ArchiveError>)
    requires source != destination && destination.IsEmpty() && ReadsContent(chunked) && Transports(cut)
    modifies destination
    ensures captured.Ok? <==>
      && Scannable(source.files, source.directories, storageClass, sha)
      && SizesBelow(source.files, storageClass, Pow(8, 11))
    ensures restored.Ok? <==> captured.Ok? && WithinReach(source.files, storageClass)
    ensures restored.Ok? ==>
      && restored.value.entries == captured.value.0.entries
      && destination.files == (map key | key in KeysOf(source.files, storageClass) :: source.files[key])
      && destination.directories == AllAncestors(captured.value.0.entries)
    ensures restored.Err? ==> destination.IsEmpty()
  {
    hide Scannable, SizesBelow, KeysOf, Pow, Accepts, Files, IsInventory, ValidManifest, IsProbeCount, AllAncestors,
      WithinLimits, WithinReach;
    ghost var probes;
    captured, probes := CaptureStorageVolume(source, storageClass, chunked, sha);
    match captured
    case Err(cause) => restored := Err(cause);
    case Ok(capture) =>
      CapturedManifestValid(source.files, source.directories, storageClass, capture.0, capture.1, probes, sha);
      CaptureRestores(source.files, storageClass, capture.0, capture.1, probes, sha);
      LimitsAreTheVolumes(source.files, storageClass, capture.0, capture.1, probes, sha);
      RawChecked(capture.0);
      var reader := new ExactStreamReader(cut(capture.1));
      restored := RestoreStorageVolume(destination, Raw(capture.0), reader, storageClass, sha);
  }

  // ---------- a volume that is captured and cannot be restored ----------

  function TwelveDigits(i: nat): string {
    PadStart(Digits(i, 10), 12)
  }

  lemma TwelveDigitsRead(i: nat)
    requires i < Pow(10, 12)
    ensures |TwelveDigits(i)| == 12 && AllDigits(TwelveDigits(i), 10) && Value(TwelveDigits(i), 10) == i
  {
    hide Pow;
    var s := Digits(i, 10);
    DigitsLength(i, 10, 12);
    ValueDigits(i, 10);
    var zeros := if |s| < 12 then Repeat('0', 12 - |s|) else "";
    assert TwelveDigits(i) == zeros + s;
    ValuePadded(zeros, s, 10);
  }

  const UUID_HEAD := "00000000-0000-0000-0000-"

  function Upload(i: nat): string {
    Join(["staging", "uploads", UUID_HEAD + TwelveDigits(i)], '/')
  }

  lemma UploadIsUuid(i: nat)
    requires i < Pow(10, 12)
    ensures IsUuid(UUID_HEAD + TwelveDigits(i))
  {
    hide Pow;
    TwelveDigitsRead(i);
    var s := TwelveDigits(i);
    hide TwelveDigits, Value;
    forall k | 0 <= k < 12 ensures IsHexDigit(s[k]) {
      assert IsDigit(s[k], 10);
    }
  }

  lemma UploadSplits(i: nat)
    requires i < Pow(10, 12)
    ensures Split(Upload(i), '/') == ["staging", "uploads", UUID_HEAD + TwelveDigits(i)]
    ensures ClassifyLegacyStoragePath(Upload(i)) == Some(Staging)
  {
    hide Pow;
    UploadIsUuid(i);
    UuidIsSafe(UUID_HEAD + TwelveDigits(i));
    hide TwelveDigits, IsUuid;
    SplitJoin(["staging", "uploads", UUID_HEAD + TwelveDigits(i)], '/');
  }

  lemma UploadsDiffer(i: nat, j: nat)
    requires i < Pow(10, 12) && j < Pow(10, 12) && Upload(i) == Upload(j)
    ensures i == j
  {
    hide Pow;
    UploadSplits(i);
    UploadSplits(j);
    TwelveDigitsRead(i);
    TwelveDigitsRead(j);
    hide Split, Upload, TwelveDigits, Value;
    var a, b := UUID_HEAD + TwelveDigits(i), UUID_HEAD + TwelveDigits(j);
    assert a == ["staging", "uploads", a][2] == ["staging", "uploads", b][2] == b;
    assert TwelveDigits(i) == a[24..] == b[24..] == TwelveDigits(j);
  }

  ghost function UploadKeys(n: nat): set<string> {
    set i: nat | i < n :: Upload(i)
  }

  lemma {:induction false} UploadCount(n: nat)
    requires n <= Pow(10, 12)
    ensures |UploadKeys(n)| == n
  {
    hide Pow, Upload;
    if n == 0 {
      assert UploadKeys(0) == {};
    } else {
      UploadCount(n - 1);
      if Upload(n - 1) in UploadKeys(n - 1) {
        var i: nat :| i < n - 1 && Upload(i) == Upload(n - 1);
        UploadsDiffer(i, n - 1);
      }
      assert UploadKeys(n) == UploadKeys(n - 1) + {Upload(n - 1)};
    }
  }

  /** That many empty uploads. */
  ghost function Uploads(n: nat): FileMap {
    map key | key in UploadKeys(n) :: []
  }

  lemma TwoSplit(a: string, b: string, c: char)
    requires c !in a && c !in b
    ensures Split(a, c) == [a] && Split(a + [c] + b, c) == [a, b]
  {
    SplitNone(a, c);
    SplitNone(b, c);
    SplitHead(a, b, c);
  }

  lemma StagingSplits()
    ensures Split("staging", '/') == ["staging"] && Split("staging/uploads", '/') == ["staging", "uploads"]
  {
    hide Split;
    var a, b := "staging", "uploads";
    assert '/' !in a && '/' !in b;
    TwoSplit(a, b, '/');
    assert a + ['/'] + b == "staging/uploads";
  }

  lemma UploadDirectories()
    ensures forall d | d in {"staging", "staging/uploads"} ::
      IsAllowedDirectory(Staging, Split(d, '/')) && HasBoundedGeneration(Split(d, '/'))
  {
    hide Split;
    StagingSplits();
  }

  lemma UploadsAreStaging(n: nat)
    requires n <= Pow(10, 12)
    ensures forall key | key in Uploads(n) :: ClassifyLegacyStoragePath(key) == Some(Staging)
    ensures KeysOf(Uploads(n), Staging) == UploadKeys(n)
  {
    hide Pow, Upload, ClassifyLegacyStoragePath;
    forall key | key in Uploads(n) ensures ClassifyLegacyStoragePath(key) == Some(Staging) {
      var i: nat :| i < n && Upload(i) == key;
      UploadSplits(i);
    }
  }

  /** Any number of empty uploads can be scanned and archived. */
  lemma UploadsScan(n: nat, sha: Sha)
    requires n <= Pow(10, 12)
    ensures Scannable(Uploads(n), {"staging", "staging/uploads"}, Staging, sha)
    ensures SizesBelow(Uploads(n), Staging, Pow(8, 11))
  {
    hide Pow, Split, ClassifySegments, IsAllowedDirectory, HasBoundedGeneration, UploadKeys, SentinelEntry;
    UploadDirectories();
    UploadsAreStaging(n);
  }

  /** A million and one empty uploads are captured, and are over the limits of a manifest. */
  lemma TooManyUploads(sha: Sha)
    ensures var files := Uploads(1_000_001);
      && Scannable(files, {"staging", "staging/uploads"}, Staging, sha) && SizesBelow(files, Staging, Pow(8, 11))
      && |KeysOf(files, Staging)| == 1_000_001 && !WithinReach(files, Staging)
  {
    ManyPowers();
    hide Pow, Scannable, SizesBelow, KeysOf, Uploads, UploadKeys, ProbeBytes;
    UploadsScan(1_000_001, sha);
    UploadsAreStaging(1_000_001);
    UploadCount(1_000_001);
  }

  lemma ManyPowers()
    ensures Pow(10, 12) > 1_000_001
  {
    assert Pow(10, 3) == 1_000 && Pow(10, 6) == 1_000_000 && Pow(10, 9) == 1_000_000_000;
    assert Pow(10, 12) == 1_000_000_000_000;
  }
}
