/** Scanning, capturing and restoring a storage volume. */
module Backup {
  import opened Wrappers
  import opened Text
  import opened Tar
  import opened StreamReader
  import opened Archive
  import opened StorageKeys
  import opened Manifest
  import opened Volume

  // ---------- scanning ----------

  datatype Scanned = Scanned(entries: seq<Entry>, health: Ignored)

  function KeysOf(files: FileMap, pathClass: PathClass): set<string> {
    set key | key in files && ClassifyLegacyStoragePath(key) == Some(pathClass)
  }

  /** The entries list exactly the files of the class, in key order, with their sizes and digests. */
  ghost predicate IsInventory(files: FileMap, storageClass: ArchiveClass, entries: seq<Entry>, sha: Sha) {
    && Ascending(EntryKeys(entries))
    && Keys(EntryKeys(entries)) == KeysOf(files, storageClass)
    && AreEntriesOf(files, entries, sha)
  }

  ghost predicate AreEntriesOf(files: FileMap, entries: seq<Entry>, sha: Sha) {
    forall i | 0 <= i < |entries| :: entries[i].key in files && entries[i] == EntryFor(files, entries[i].key, sha)
  }

  function EntryFor(files: FileMap, key: string, sha: Sha): Entry
    requires key in files
  {
    Entry(key, |files[key]|, sha.ofBytes(files[key]))
  }

  /** The volume holds only directories and files the class allows, and its sentinel if it needs one. */
  ghost predicate Scannable(files: FileMap, directories: set<string>, storageClass: ArchiveClass, sha: Sha) {
    && (forall d | d in directories ::
          IsAllowedDirectory(storageClass, Split(d, '/')) && HasBoundedGeneration(Split(d, '/')))
    && (forall key | key in files :: BelongsTo(storageClass, Split(key, '/')))
    && SentinelStored(files, storageClass, sha)
  }

  ghost predicate SentinelStored(files: FileMap, storageClass: ArchiveClass, sha: Sha) {
    storageClass == Publication ==>
      SentinelEntry(sha).key in files && EntryFor(files, SentinelEntry(sha).key, sha) == SentinelEntry(sha)
  }

  lemma {:induction false} LeastExists(keys: set<string>) returns (least: string)
    requires keys != {}
    ensures least in keys && forall k | k in keys :: k == least || Less(least, k)
  {
    var key :| key in keys;
    least := key;
    if keys == {key} {
    } else {
      var other := LeastExists(keys - {key});
      LessTotal(key, other);
      least := if Less(other, key) then other else key;
      forall k | k in keys ensures k == least || Less(least, k) {
        if k != key && least != other {
          if k != other {
            LessTransitive(key, other, k);
          }
        }
      }
    }
  }

  /** Directory listing and sorting together: the paths in ascending order. */
  method SortedPaths(keys: set<string>) returns (order: seq<string>)
    ensures Ascending(order) && Keys(order) == keys
  {
    order := [];
    var todo := keys;
    while todo != {}
      invariant todo <= keys && Keys(order) == keys - todo
      invariant Ascending(order)
      invariant forall i, k | 0 <= i < |order| && k in todo :: Less(order[i], k)
      decreases |todo|
    {
      hide Less, Ascending;
      ghost var first := LeastExists(todo);
      var least :| least in todo && forall k | k in todo :: k == least || IsLess(least, k);
      forall k | k in todo && k != least ensures Less(least, k) {
        assert IsLess(least, k);
      }
      LeastNext(order, todo, least);
      KeysAppend(order, least);
      order := order + [least];
      todo := todo - {least};
    }
  }

  /** The least of the remaining paths continues the listing, and everything left comes after it. */
  lemma LeastNext(order: seq<string>, todo: set<string>, least: string)
    requires Ascending(order) && forall i, k | 0 <= i < |order| && k in todo :: Less(order[i], k)
    requires least in todo && forall k | k in todo :: k == least || Less(least, k)
    ensures Ascending(order + [least])
    ensures forall i, k | 0 <= i <= |order| && k in todo - {least} :: Less((order + [least])[i], k)
  {
    hide Less;
  }

  function FilesSize(files: FileMap, keys: seq<string>): nat
    requires forall k | k in keys :: k in files
  {
    if keys == [] then 0
    else FilesSize(files, keys[..|keys| - 1]) + |files[keys[|keys| - 1]]|
  }

  lemma FilesSizeAppend(files: FileMap, keys: seq<string>, key: string)
    requires (forall k | k in keys :: k in files) && key in files
    ensures forall k | k in keys + [key] :: k in files
    ensures FilesSize(files, keys + [key]) == FilesSize(files, keys) + |files[key]|
  {
    assert (keys + [key])[..|keys|] == keys;
  }

  /** The probes list exactly the health files, which a staging scan only counts. */
  ghost predicate IsProbeCount(files: FileMap, probes: seq<string>, health: Ignored) {
    && Ascending(probes) && Keys(probes) == KeysOf(files, Health)
    && (forall k | k in probes :: k in files)
    && health == Ignored(|probes|, FilesSize(files, probes))
  }

  lemma SentinelKeyLegal(sha: Sha)
    ensures ClassifyLegacyStoragePath(SentinelEntry(sha).key) == Some(Publication)
  {
    SplitJoin(SENTINEL, '/');
  }

  lemma SentinelInInventory(files: FileMap, storageClass: ArchiveClass, entries: seq<Entry>, sha: Sha)
    requires IsInventory(files, storageClass, entries, sha)
    ensures SentinelValid(storageClass, entries, sha) <==> SentinelStored(files, storageClass, sha)
  {
    SentinelKeyLegal(sha);
    var s := SentinelEntry(sha);
    hide ClassifyLegacyStoragePath, SentinelEntry, Less;
    if storageClass == Publication {
      if s.key in files {
        assert s.key in Keys(EntryKeys(entries));
        var i :| 0 <= i < |entries| && EntryKeys(entries)[i] == s.key;
        assert entries[i] == EntryFor(files, s.key, sha);
      }
      forall i, j | 0 <= i < j < |entries| ensures entries[i].key != entries[j].key {
        AscendingPair(EntryKeys(entries), i, j);
      }
    }
  }

  /** What the scan has gathered once it has seen the paths `done`. */
  ghost predicate Gathered(files: FileMap, done: seq<string>, storageClass: ArchiveClass,
                           scanned: Scanned, probes: seq<string>, sha: Sha) {
    && IsListing(done, storageClass, EntryKeys(scanned.entries))
    && AreEntriesOf(files, scanned.entries, sha)
    && IsListing(done, Health, probes)
    && (forall k | k in probes :: k in files)
    && scanned.health == Ignored(|probes|, FilesSize(files, probes))
  }

  /** The file at `i` is of the class: it is listed. */
  lemma EntryGathered(files: FileMap, order: seq<string>, i: nat, storageClass: ArchiveClass,
                      scanned: Scanned, probes: seq<string>, sha: Sha)
    requires Ascending(order) && i < |order| && order[i] in files
    requires Gathered(files, order[..i], storageClass, scanned, probes, sha)
    requires ClassifyLegacyStoragePath(order[i]) == Some(storageClass)
    ensures Gathered(files, order[..i + 1], storageClass,
              scanned.(entries := scanned.entries + [EntryFor(files, order[i], sha)]), probes, sha)
  {
    hide Less, ClassifyLegacyStoragePath, Ascending, FilesSize;
    ListingStep(order, i, storageClass, EntryKeys(scanned.entries));
    ListingStep(order, i, Health, probes);
    hide IsListing;
    var entries := scanned.entries + [EntryFor(files, order[i], sha)];
    assert EntryKeys(entries) == EntryKeys(scanned.entries) + [order[i]];
  }

  /** The file at `i` is a probe of a staging volume: it is counted. */
  lemma ProbeGathered(files: FileMap, order: seq<string>, i: nat, scanned: Scanned, probes: seq<string>, sha: Sha)
    requires Ascending(order) && i < |order| && order[i] in files
    requires Gathered(files, order[..i], Staging, scanned, probes, sha)
    requires ClassifyLegacyStoragePath(order[i]) == Some(Health)
    ensures Gathered(files, order[..i + 1], Staging,
              scanned.(health := Ignored(scanned.health.count + 1, scanned.health.bytes + |files[order[i]]|)),
              probes + [order[i]], sha)
  {
    hide Less, ClassifyLegacyStoragePath, Ascending, FilesSize;
    ListingStep(order, i, Staging, EntryKeys(scanned.entries));
    ListingStep(order, i, Health, probes);
    hide IsListing;
    FilesSizeAppend(files, probes, order[i]);
  }

  /** One file of the walk: classified, then kept, counted or refused. */
  method ScanFile(files: FileMap, order: seq<string>, i: nat, storageClass: ArchiveClass, sha: Sha,
                  scanned: Scanned, ghost probes: seq<string>)
      returns (r: Result<Scanned, ArchiveError>, ghost probes': seq<string>)
    requires Ascending(order) && i < |order| && order[i] in files
    requires Gathered(files, order[..i], storageClass, scanned, probes, sha)
    ensures r.Ok? <==> BelongsTo(storageClass, Split(order[i], '/'))
    ensures r.Ok? ==> Gathered(files, order[..i + 1], storageClass, r.value, probes', sha)
  {
    hide Less, Split, ClassifySegments, Gathered, Ascending;
    var key := order[i];
    var classified := ClassifyLegacyStoragePath(key);
    probes' := probes;
    if classified == None || classified == Some(Scratch) {
      return Err(if classified == None then UnknownKey else MisroutedKey), probes;
    }
    if classified == Some(Health) && storageClass == Staging {
      ProbeGathered(files, order, i, scanned, probes, sha);
      probes' := probes + [key];
      r := Ok(scanned.(health := Ignored(scanned.health.count + 1, scanned.health.bytes + |files[key]|)));
    } else if classified != Some(storageClass) {
      r := Err(MisroutedKey);
    } else {
      EntryGathered(files, order, i, storageClass, scanned, probes, sha);
      r := Ok(scanned.(entries := scanned.entries + [EntryFor(files, key, sha)]));
    }
  }

  method ScanFiles(files: FileMap, order: seq<string>, storageClass: ArchiveClass, sha: Sha)
      returns (r: Result<Scanned, ArchiveError>, ghost probes: seq<string>)
    requires Ascending(order) && forall k | k in order :: k in files
    ensures r.Ok? <==> forall j | 0 <= j < |order| :: BelongsTo(storageClass, Split(order[j], '/'))
    ensures r.Ok? ==> Gathered(files, order, storageClass, r.value, probes, sha)
  {
    var scanned := Scanned([], Ignored(0, 0));
    probes := [];
    for i := 0 to |order|
      invariant forall j | 0 <= j < i :: BelongsTo(storageClass, Split(order[j], '/'))
      invariant Gathered(files, order[..i], storageClass, scanned, probes, sha)
    {
      hide Gathered, BelongsTo, Less;
      var next;
      next, probes := ScanFile(files, order, i, storageClass, sha, scanned, probes);
      if next.Err? {
        return next, probes;
      }
      scanned := next.value;
    }
    assert order[..|order|] == order;
    return Ok(scanned), probes;
  }

  method ScanVolume(volume: StorageVolume, storageClass: ArchiveClass, sha: Sha)
      returns (r: Result<Scanned, ArchiveError>, ghost probes: seq<string>)
    ensures r.Ok? <==> Scannable(volume.files, volume.directories, storageClass, sha)
    ensures r.Ok? ==> IsInventory(volume.files, storageClass, r.value.entries, sha)
    ensures r.Ok? ==> IsProbeCount(volume.files, probes, r.value.health)
  {
    var files, directories := volume.files, volume.directories;
    probes := [];
    if exists d | d in directories ::
        !IsAllowedDirectory(storageClass, Split(d, '/')) || !HasBoundedGeneration(Split(d, '/')) {
      return Err(UnknownDirectory), probes;
    }
    hide Less, IsAllowedDirectory, HasBoundedGeneration, ClassifyLegacyStoragePath, BelongsTo, Split;
    var order := SortedPaths(files.Keys);
    assert forall k :: k in order <==> k in Keys(order);
    var scanned;
    scanned, probes := ScanFiles(files, order, storageClass, sha);
    if scanned.Err? {
      return scanned, probes;
    }
    var entries := scanned.value.entries;
    ListingIsComplete(files, order, storageClass, EntryKeys(entries));
    ListingIsComplete(files, order, Health, probes);
    SentinelInInventory(files, storageClass, entries, sha);
    var sentinel := AssertPublicationSentinel(storageClass, entries, sha);
    if sentinel.Err? {
      return Err(sentinel.error), probes;
    }
    return scanned, probes;
  }

  /** The paths of a class among some paths, in their order. */
  ghost predicate IsListing(order: seq<string>, pathClass: PathClass, keys: seq<string>) {
    && Ascending(keys)
    && (forall k | k in keys :: k in order && ClassifyLegacyStoragePath(k) == Some(pathClass))
    && (forall k | k in order && ClassifyLegacyStoragePath(k) == Some(pathClass) :: k in keys)
  }

  lemma ListingStep(order: seq<string>, i: nat, pathClass: PathClass, keys: seq<string>)
    requires Ascending(order) && i < |order| && IsListing(order[..i], pathClass, keys)
    ensures IsListing(order[..i + 1], pathClass,
              if ClassifyLegacyStoragePath(order[i]) == Some(pathClass) then keys + [order[i]] else keys)
  {
    hide ClassifyLegacyStoragePath, Less;
    assert order[..i + 1] == order[..i] + [order[i]];
    LastComesBefore(order, i, keys);
  }

  lemma LastComesBefore(order: seq<string>, i: nat, keys: seq<string>)
    requires Ascending(order) && i < |order| && forall k | k in keys :: k in order[..i]
    ensures keys != [] ==> Less(keys[|keys| - 1], order[i])
  {
    if keys != [] {
      var last := keys[|keys| - 1];
      assert last in keys;
      var j :| 0 <= j < i && order[..i][j] == last;
      AscendingPair(order, j, i);
    }
  }

  lemma ListingIsComplete(files: FileMap, order: seq<string>, pathClass: PathClass, keys: seq<string>)
    requires Keys(order) == files.Keys && IsListing(order, pathClass, keys)
    ensures Keys(keys) == KeysOf(files, pathClass)
  {
    hide ClassifyLegacyStoragePath;
    forall k ensures k in keys <==> k in KeysOf(files, pathClass) {
      assert k in order <==> k in Keys(order);
    }
  }

  function ManifestFor(storageClass: ArchiveClass, scanned: Scanned, sha: Sha): Manifest {
    Manifest(storageClass, EvidenceOf(scanned.entries, sha), scanned.entries, scanned.health)
  }

  // ---------- restoring ----------

  lemma AscendingTail(keys: seq<string>)
    requires Ascending(keys) && keys != []
    ensures Ascending(keys[1..]) && keys[0] !in Keys(keys[1..])
  {
    hide Less;
    forall i | 0 < i < |keys| ensures keys[i] != keys[0] {
      AscendingPair(keys, 0, i);
    }
  }

  /** An accepted stream carries, under each listed key, content of the listed size and digest. */
  lemma {:induction false} AcceptedFiles(s: seq<Byte>, entries: seq<Entry>, sha: Sha)
    requires Accepts(s, entries, sha) && Ascending(EntryKeys(entries))
    ensures Files(s, entries).Keys == Keys(EntryKeys(entries))
    ensures AreEntriesOf(Files(s, entries), entries, sha)
    decreases |entries|
  {
    if entries == [] {
    } else {
      var e, n := entries[0], EntrySize(entries[0]);
      var rest, tail := Files(s[n..], entries[1..]), EntryKeys(entries[1..]);
      assert s[BLOCK_BYTES..][..e.bytes] == ContentOf(s, e);
      FilesFront(s, entries);
      assert EntryKeys(entries)[1..] == tail && EntryKeys(entries) == [e.key] + tail;
      AscendingTail(EntryKeys(entries));
      KeysFront(entries);
      hide Less, Ascending, Files, EntryAccepted, AreEntriesOf, Keys, EntryKeys;
      AcceptedFiles(s[n..], entries[1..], sha);
      EntriesFront(rest, entries, ContentOf(s, e), sha);
    }
  }

  lemma KeysFront(entries: seq<Entry>)
    requires entries != []
    ensures Keys(EntryKeys(entries)) == {entries[0].key} + Keys(EntryKeys(entries[1..]))
  {
    assert EntryKeys(entries) == [entries[0].key] + EntryKeys(entries[1..]);
  }

  lemma EntriesFront(rest: FileMap, entries: seq<Entry>, content: seq<Byte>, sha: Sha)
    requires entries != [] && entries[0] == Entry(entries[0].key, |content|, sha.ofBytes(content))
    requires entries[0].key !in rest && AreEntriesOf(rest, entries[1..], sha)
    ensures AreEntriesOf(map[entries[0].key := content] + rest, entries, sha)
  {
    var files := map[entries[0].key := content] + rest;
    forall i | 0 <= i < |entries|
      ensures entries[i].key in files && entries[i] == EntryFor(files, entries[i].key, sha)
    {
      if i > 0 {
        assert entries[i] == entries[1..][i - 1];
      }
    }
  }

  ghost predicate LegalEntries(entries: seq<Entry>, storageClass: ArchiveClass) {
    forall i | 0 <= i < |entries| :: ClassifyLegacyStoragePath(entries[i].key) == Some(storageClass)
  }

  lemma LegalEntriesDoNotNest(entries: seq<Entry>, storageClass: ArchiveClass)
    requires LegalEntries(entries, storageClass)
    ensures NoNesting(entries)
  {
    forall i, j | 0 <= i < |entries| && 0 <= j < |entries| ensures entries[i].key !in Ancestors(entries[j].key) {
      KeysDoNotNest(storageClass, entries[i].key, entries[j].key);
    }
  }

  lemma LegalEntriesAllowed(entries: seq<Entry>, storageClass: ArchiveClass)
    requires LegalEntries(entries, storageClass)
    ensures forall d | d in AllAncestors(entries) ::
      IsAllowedDirectory(storageClass, Split(d, '/')) && HasBoundedGeneration(Split(d, '/'))
  {
    forall d | d in AllAncestors(entries)
      ensures IsAllowedDirectory(storageClass, Split(d, '/')) && HasBoundedGeneration(Split(d, '/'))
    {
      var i :| 0 <= i < |entries| && d in Ancestors(entries[i].key);
      KeyAncestorsAllowed(storageClass, entries[i].key);
    }
  }

  /** Scanning what an accepted stream was extracted to finds the listed entries and nothing else. */
  lemma RestoredVolumeScans(s: seq<Byte>, entries: seq<Entry>, storageClass: ArchiveClass, sha: Sha)
    requires Accepts(s, entries, sha) && Ascending(EntryKeys(entries)) && LegalEntries(entries, storageClass)
    requires SentinelValid(storageClass, entries, sha)
    ensures Scannable(Files(s, entries), AllAncestors(entries), storageClass, sha)
    ensures IsInventory(Files(s, entries), storageClass, entries, sha)
  {
    hide Accepts, Files, Less, Split, IsAllowedDirectory, HasBoundedGeneration, SentinelStored, SentinelValid,
      LegalEntries, Keys, AreEntriesOf, ClassifyLegacyStoragePath, KeysOf, BelongsTo, Ascending;
    AcceptedFiles(s, entries, sha);
    LegalEntriesAllowed(entries, storageClass);
    OnlyOneClass(Files(s, entries), entries, storageClass);
    SentinelInInventory(Files(s, entries), storageClass, entries, sha);
  }

  /** Files under legal keys of a class all belong to it. */
  lemma OnlyOneClass(files: FileMap, entries: seq<Entry>, storageClass: ArchiveClass)
    requires files.Keys == Keys(EntryKeys(entries)) && LegalEntries(entries, storageClass)
    ensures KeysOf(files, storageClass) == files.Keys
    ensures forall key | key in files :: BelongsTo(storageClass, Split(key, '/'))
  {
    hide Split, ClassifySegments;
    var keys := EntryKeys(entries);
    forall key | key in files ensures ClassifyLegacyStoragePath(key) == Some(storageClass) {
      assert key in Keys(keys);
      var i :| 0 <= i < |keys| && keys[i] == key;
    }
  }

  /** A class's inventory of a volume is determined by the volume. */
  lemma InventoryUnique(files: FileMap, storageClass: ArchiveClass, a: seq<Entry>, b: seq<Entry>, sha: Sha)
    requires IsInventory(files, storageClass, a, sha) && IsInventory(files, storageClass, b, sha)
    ensures a == b
  {
    AscendingUnique(EntryKeys(a), EntryKeys(b));
    forall i | 0 <= i < |a| ensures a[i] == b[i] {
      assert EntryKeys(a)[i] == EntryKeys(b)[i];
    }
  }

  /** Extraction, re-scan and comparison: the part of a restore whose failure is rolled back. */
  method ExtractAndCheck(volume: StorageVolume, manifest: Manifest, reader: ExactStreamReader, sha: Sha)
      returns (r: Result<Manifest, ArchiveError>)
    requires reader.Valid() && NonEmptyChunks(reader.stream) && volume.IsEmpty()
    requires Ascending(EntryKeys(manifest.entries)) && LegalEntries(manifest.entries, manifest.storageClass)
    requires SentinelValid(manifest.storageClass, manifest.entries, sha)
    requires manifest.evidence == EvidenceOf(manifest.entries, sha)
    modifies volume, reader
    ensures r.Ok? <==> Accepts(old(reader.Remaining()), manifest.entries, sha)
    ensures r.Ok? ==> r.value == manifest
    ensures r.Ok? ==> volume.files == Files(old(reader.Remaining()), manifest.entries)
    ensures r.Ok? ==> volume.directories == AllAncestors(manifest.entries)
  {
    ghost var stream := reader.Remaining();
    LegalEntriesDoNotNest(manifest.entries, manifest.storageClass);
    hide Accepts, Files, LegalEntries, NoNesting, Ascending, SentinelValid, IsInventory, Scannable;
    var extracted := ExtractArchive(reader, volume, manifest.entries, sha);
    if extracted.Err? {
      return Err(extracted.error);
    }
    RestoredVolumeScans(stream, manifest.entries, manifest.storageClass, sha);
    var scanned, probes := ScanVolume(volume, manifest.storageClass, sha);
    match scanned
    case Err(cause) => r := Err(cause);
    case Ok(value) =>
      InventoryUnique(volume.files, manifest.storageClass, value.entries, manifest.entries, sha);
      var restored := ManifestFor(manifest.storageClass, value, sha);
      if restored.evidence != manifest.evidence || restored.entries != manifest.entries {
        return Err(EvidenceMismatch);
      }
      r := Ok(manifest);
  }

  /** All or nothing: from an empty destination a restore succeeds exactly when the manifest is
      valid and the stream is accepted, and then holds exactly the archived files; otherwise the
      destination is empty again. A destination that is not empty is refused and left alone. */
  method RestoreStorageVolume(volume: StorageVolume, raw: RawManifest, reader: ExactStreamReader,
                              storageClass: ArchiveClass, sha: Sha)
      returns (r: Result<Manifest, ArchiveError>)
    requires reader.Valid() && NonEmptyChunks(reader.stream)
    modifies volume, reader
    ensures !old(volume.IsEmpty()) ==>
      && r == Err(DestinationNotEmpty)
      && volume.files == old(volume.files) && volume.directories == old(volume.directories)
    ensures old(volume.IsEmpty()) ==>
      (r.Ok? <==> ValidManifest(raw, storageClass, sha) && Accepts(old(reader.Remaining()), Checked(raw.entries), sha))
    ensures r.Ok? ==> r.value.entries == Checked(raw.entries)
    ensures r.Ok? ==> volume.files == Files(old(reader.Remaining()), Checked(raw.entries))
    ensures r.Ok? ==> volume.directories == AllAncestors(Checked(raw.entries))
    ensures old(volume.IsEmpty()) && r.Err? ==> volume.IsEmpty()
  {
    if !volume.IsEmpty() {
      return Err(DestinationNotEmpty);
    }
    var validated := ValidateManifest(raw, storageClass, sha);
    if validated.Err? {
      return validated;
    }
    hide ClassifyLegacyStoragePath, IsDigest, Ascending, SentinelValid, EvidenceOf, Accepts, Files, AllAncestors;
    assert LegalEntries(validated.value.entries, storageClass);
    r := ExtractAndCheck(volume, validated.value, reader, sha);
    if r.Err? {
      volume.Clear();
    }
  }

  /** The rehearsal of a restore: it succeeds exactly when restoring the same input would, and leaves
      the destination as it is. */
  method VerifyStorageRestoreInput(volume: StorageVolume, raw: RawManifest, reader: ExactStreamReader,
                                   storageClass: ArchiveClass, sha: Sha)
      returns (r: Result<Manifest, ArchiveError>)
    requires reader.Valid() && NonEmptyChunks(reader.stream)
    modifies reader
    ensures r.Ok? <==>
      && volume.IsEmpty()
      && ValidManifest(raw, storageClass, sha) && Accepts(old(reader.Remaining()), Checked(raw.entries), sha)
    ensures r.Ok? ==> r.value.entries == Checked(raw.entries)
    ensures !volume.IsEmpty() ==> r == Err(DestinationNotEmpty)
  {
    if !volume.IsEmpty() {
      return Err(DestinationNotEmpty);
    }
    var validated := ValidateManifest(raw, storageClass, sha);
    if validated.Err? {
      return validated;
    }
    hide Accepts, ValidManifest;
    var verified := VerifyArchiveContents(reader, validated.value.entries, sha);
    match verified
    case Err(cause) => r := Err(cause);
    case Ok(_) => r := validated;
  }

  // ---------- capturing ----------

  /** One source per inventoried entry: its file's content in the chunks it is read in. */
  ghost predicate AreSourcesOf(files: FileMap, entries: seq<Entry>, sources: seq<Source>) {
    && |sources| == |entries|
    && forall i | 0 <= i < |entries| ::
         entries[i].key in files && sources[i].entry == entries[i] && Concat(sources[i].chunks) == files[entries[i].key]
  }

  /** The writer's side of one entry: every legal key and every file below 8^11 bytes is storable. */
  lemma InventorySources(files: FileMap, storageClass: ArchiveClass, entries: seq<Entry>, sources: seq<Source>,
                         sha: Sha)
    requires IsInventory(files, storageClass, entries, sha) && AreSourcesOf(files, entries, sources)
    ensures LegalEntries(entries, storageClass)
    ensures AllFaithful(sources, sha) && AllNamed(sources)
    ensures SizesBelow(files, storageClass, Pow(8, 11)) <==> forall i | 0 <= i < |sources| :: Storable(sources[i].entry)
  {
    hide Less, ClassifyLegacyStoragePath, Encodable, Pow;
    forall i | 0 <= i < |entries|
      ensures ClassifyLegacyStoragePath(entries[i].key) == Some(storageClass)
      ensures Encodable(entries[i].key) && !Nameless(entries[i].key)
    {
      assert EntryKeys(entries)[i] in Keys(EntryKeys(entries));
      LegalKeyEncodable(storageClass, entries[i].key);
    }
    hide KeysOf, Faithful;
    InventorySizes(files, storageClass, entries, Pow(8, 11), sha);
    assert forall i | 0 <= i < |entries| :: Storable(sources[i].entry) <==> |files[entries[i].key]| < Pow(8, 11);
  }

  ghost predicate SizesBelow(files: FileMap, storageClass: ArchiveClass, bound: nat) {
    forall key | key in KeysOf(files, storageClass) :: |files[key]| < bound
  }

  lemma InventorySizes(files: FileMap, storageClass: ArchiveClass, entries: seq<Entry>, bound: nat, sha: Sha)
    requires IsInventory(files, storageClass, entries, sha)
    ensures SizesBelow(files, storageClass, bound) <==> forall i | 0 <= i < |entries| :: |files[entries[i].key]| < bound
  {
    hide Less, ClassifyLegacyStoragePath;
    forall key | key in KeysOf(files, storageClass)
      ensures exists i :: 0 <= i < |entries| && entries[i].key == key
    {
      assert key in EntryKeys(entries);
      var i :| 0 <= i < |entries| && EntryKeys(entries)[i] == key;
      assert entries[i].key == key;
    }
    forall i | 0 <= i < |entries| ensures entries[i].key in KeysOf(files, storageClass) {
      assert EntryKeys(entries)[i] in Keys(EntryKeys(entries));
    }
  }

  lemma {:induction false} SourceFilesAre(files: FileMap, entries: seq<Entry>, sources: seq<Source>)
    requires AreSourcesOf(files, entries, sources)
    ensures SourceFiles(sources) == map key | key in Keys(EntryKeys(entries)) && key in files :: files[key]
    decreases |sources|
  {
    if sources == [] {
    } else {
      assert EntryKeys(entries) == [entries[0].key] + EntryKeys(entries[1..]);
      SourceFilesAre(files, entries[1..], sources[1..]);
    }
  }

  /** How a file's content arrives when it is read: in some chunks. */
  type FileReads = seq<Byte> -> seq<seq<Byte>>

  ghost predicate ReadsContent(chunked: FileReads) {
    forall content :: Concat(chunked(content)) == content
  }

  function SourcesOf(files: FileMap, entries: seq<Entry>, chunked: FileReads): (sources: seq<Source>)
    requires ReadsContent(chunked) && forall i | 0 <= i < |entries| :: entries[i].key in files
    ensures AreSourcesOf(files, entries, sources)
  {
    seq(|entries|, i requires 0 <= i < |entries| => Source(entries[i], chunked(files[entries[i].key])))
  }

  /** Writing the archive of an inventory and checking it: succeeds unless some file is too large. */
  method WriteArchive(files: FileMap, storageClass: ArchiveClass, entries: seq<Entry>, chunked: FileReads, sha: Sha)
      returns (r: Result<seq<Byte>, ArchiveError>)
    requires IsInventory(files, storageClass, entries, sha) && ReadsContent(chunked)
    ensures r.Ok? <==> SizesBelow(files, storageClass, Pow(8, 11))
    ensures r.Ok? ==> Accepts(r.value, entries, sha)
    ensures r.Ok? ==> Files(r.value, entries) == map key | key in KeysOf(files, storageClass) :: files[key]
  {
    var sources := SourcesOf(files, entries, chunked);
    InventorySources(files, storageClass, entries, sources, sha);
    hide Storable, ClassifyLegacyStoragePath, Ascending, Faithful, AllNamed, IsArchive, Accepts, Files, Pow, SizesBelow,
      LegalEntries, AreEntriesOf;
    var yielded := TarContents(sources, sha);
    if yielded.Err? {
      return Err(yielded.error);
    }
    var archive := Concat(yielded.value);
    ArchiveAccepted(archive, sources, sha);
    ArchiveCarriesFiles(archive, sources, sha);
    SourceFilesAre(files, entries, sources);
    assert Entries(sources) == entries;
    assert archive + Concat([]) == archive && Concat([archive]) == archive;
    var reader := new ExactStreamReader([archive]);
    var verified := VerifyArchiveContents(reader, entries, sha);
    match verified
    case Err(cause) => r := Err(cause);
    case Ok(_) => r := Ok(archive);
  }

  method CaptureStorageVolume(volume: StorageVolume, storageClass: ArchiveClass, chunked: FileReads, sha: Sha)
      returns (r: Result<(Manifest, seq<Byte>), ArchiveError>, ghost probes: seq<string>)
    requires ReadsContent(chunked)
    ensures r.Ok? <==>
      && Scannable(volume.files, volume.directories, storageClass, sha)
      && SizesBelow(volume.files, storageClass, Pow(8, 11))
    ensures r.Ok? ==> IsCapture(volume.files, storageClass, r.value.0, r.value.1, probes, sha)
  {
    var scanned;
    scanned, probes := ScanVolume(volume, storageClass, sha);
    if scanned.Err? {
      return Err(scanned.error), probes;
    }
    hide Scannable, Pow, Accepts, Files, IsProbeCount, IsInventory;
    var manifest := ManifestFor(storageClass, scanned.value, sha);
    var archive := WriteArchive(volume.files, storageClass, manifest.entries, chunked, sha);
    if archive.Err? {
      return Err(archive.error), probes;
    }
    return Ok((manifest, archive.value)), probes;
  }

  /** What a capture leaves behind: an inventory with its evidence, and an archive that is accepted
      for it and carries exactly the files of the class. */
  ghost predicate IsCapture(files: FileMap, storageClass: ArchiveClass, manifest: Manifest, archive: seq<Byte>,
                            probes: seq<string>, sha: Sha) {
    && manifest.storageClass == storageClass
    && IsInventory(files, storageClass, manifest.entries, sha)
    && manifest.evidence == EvidenceOf(manifest.entries, sha)
    && IsProbeCount(files, probes, manifest.health)
    && Accepts(archive, manifest.entries, sha)
    && Files(archive, manifest.entries) == map key | key in KeysOf(files, storageClass) :: files[key]
  }

  /** The manifest as it is written out and parsed back. */
  function Raw(m: Manifest): RawManifest {
    RawManifest(1, m.storageClass, m.evidence.count, m.evidence.bytes, m.evidence.sha256,
      seq(|m.entries|, i requires 0 <= i < |m.entries| =>
        RawEntry(m.entries[i].key, m.entries[i].bytes, m.entries[i].sha256)),
      m.health)
  }

  lemma {:induction false} TotalBytesBounded(entries: seq<Entry>, bound: nat)
    requires forall i | 0 <= i < |entries| :: entries[i].bytes <= bound
    ensures TotalBytes(entries) <= |entries| * bound
  {
    if entries == [] {
    } else {
      TotalBytesBounded(entries[..|entries| - 1], bound);
      assert |entries| * bound == (|entries| - 1) * bound + bound;
    }
  }

  /** The limits that validation puts on a manifest and that a capture does not check. */
  predicate WithinLimits(manifest: Manifest) {
    |manifest.entries| <= MAXIMUM_ENTRIES && IsSafe(manifest.health.count) && IsSafe(manifest.health.bytes)
  }

  /** A captured manifest validates, unless the volume holds more entries or probe bytes than a
      manifest may record. */
  lemma CapturedManifestValid(files: FileMap, directories: set<string>, storageClass: ArchiveClass, manifest: Manifest,
                              archive: seq<Byte>, probes: seq<string>, sha: Sha)
    requires Scannable(files, directories, storageClass, sha) && SizesBelow(files, storageClass, Pow(8, 11))
    requires IsCapture(files, storageClass, manifest, archive, probes, sha)
    ensures ValidManifest(Raw(manifest), storageClass, sha) <==> WithinLimits(manifest)
  {
    hide Scannable, SizesBelow, IsInventory, IsProbeCount, ValidEntries, SentinelValid, AggregateText, TotalBytes,
      Accepts, Files, IsDigest, ClassifyLegacyStoragePath, Ascending;
    var entries := manifest.entries;
    CaptureSentinel(files, directories, storageClass, entries, sha);
    CapturedEntriesValid(files, storageClass, entries, sha);
    InventoryAscends(files, storageClass, entries, sha);
    RawChecked(manifest);
    RawEntriesValid(manifest, storageClass);
    if storageClass != Staging {
      NoProbes(files, directories, storageClass, probes, manifest.health, sha);
    }
  }

  lemma CaptureSentinel(files: FileMap, directories: set<string>, storageClass: ArchiveClass, entries: seq<Entry>,
                        sha: Sha)
    requires Scannable(files, directories, storageClass, sha) && IsInventory(files, storageClass, entries, sha)
    ensures SentinelValid(storageClass, entries, sha)
  {
    SentinelInInventory(files, storageClass, entries, sha);
  }

  lemma InventoryAscends(files: FileMap, storageClass: ArchiveClass, entries: seq<Entry>, sha: Sha)
    requires IsInventory(files, storageClass, entries, sha)
    ensures Ascending(EntryKeys(entries))
  {
  }

  lemma RawEntriesValid(m: Manifest, storageClass: ArchiveClass)
    requires Ascending(EntryKeys(m.entries))
    requires forall i | 0 <= i < |m.entries| :: ClassifyLegacyStoragePath(m.entries[i].key) == Some(storageClass)
    requires forall i | 0 <= i < |m.entries| :: IsSafe(m.entries[i].bytes) && IsDigest(m.entries[i].sha256)
    ensures ValidEntries(Raw(m).entries, storageClass)
  {
    hide ClassifyLegacyStoragePath, IsDigest, Ascending;
    RawChecked(m);
  }

  lemma RawChecked(m: Manifest)
    ensures Checked(Raw(m).entries) == m.entries
  {
  }

  /** Restoring a captured archive with its manifest gives back exactly the files of the class. */
  lemma CaptureRestores(files: FileMap, storageClass: ArchiveClass, manifest: Manifest, archive: seq<Byte>,
                        probes: seq<string>, sha: Sha)
    requires IsCapture(files, storageClass, manifest, archive, probes, sha)
    ensures Accepts(archive, Checked(Raw(manifest).entries), sha)
    ensures Files(archive, Checked(Raw(manifest).entries)) == map key | key in KeysOf(files, storageClass) :: files[key]
  {
    RawChecked(manifest);
  }

  lemma CapturedEntriesValid(files: FileMap, storageClass: ArchiveClass, entries: seq<Entry>, sha: Sha)
    requires IsInventory(files, storageClass, entries, sha) && SizesBelow(files, storageClass, Pow(8, 11))
    ensures forall i | 0 <= i < |entries| :: ClassifyLegacyStoragePath(entries[i].key) == Some(storageClass)
    ensures forall i | 0 <= i < |entries| :: IsSafe(entries[i].bytes) && IsDigest(entries[i].sha256)
    ensures |entries| <= MAXIMUM_ENTRIES ==> IsSafe(TotalBytes(entries))
  {
    hide Less, ClassifyLegacyStoragePath, Pow, IsDigest, SizesBelow, TotalBytes, Ascending;
    OctalLimits();
    InventorySizes(files, storageClass, entries, Pow(8, 11), sha);
    InventoryIsLegal(files, storageClass, entries, sha);
    assert forall i | 0 <= i < |entries| :: entries[i].bytes < 8_589_934_592;
    TotalBytesBounded(entries, 8_589_934_592);
  }

  lemma InventoryIsLegal(files: FileMap, storageClass: ArchiveClass, entries: seq<Entry>, sha: Sha)
    requires IsInventory(files, storageClass, entries, sha)
    ensures LegalEntries(entries, storageClass)
  {
    hide Less, ClassifyLegacyStoragePath, Ascending;
    forall i | 0 <= i < |entries| ensures ClassifyLegacyStoragePath(entries[i].key) == Some(storageClass) {
      assert EntryKeys(entries)[i] in Keys(EntryKeys(entries));
    }
  }

  /** A volume of a class other than staging holds no health probe. */
  lemma NoProbes(files: FileMap, directories: set<string>, storageClass: ArchiveClass, probes: seq<string>,
                 health: Ignored, sha: Sha)
    requires Scannable(files, directories, storageClass, sha) && storageClass != Staging
    requires IsProbeCount(files, probes, health)
    ensures health == Ignored(0, 0)
  {
    hide ClassifySegments, Less, Split;
    assert KeysOf(files, Health) == {};
    KeysEmpty(probes);
  }
}
