/** Manifests: the aggregate evidence over an entry list, and the validation of a manifest
    that was read back. */
module Manifest {
  import opened Wrappers
  import opened Text
  import opened Tar
  import opened StreamReader
  import opened Archive
  import opened StorageKeys

  const MAXIMUM_ENTRIES := 1_000_000
  const SENTINEL_VALUE := "pale-orbit-publication-ready-v1"

  datatype Evidence = Evidence(count: nat, bytes: nat, sha256: string)

  datatype Ignored = Ignored(count: int, bytes: int)

  /** A manifest as parsed from JSON, its fields present and of the right kind but unchecked. */
  datatype RawEntry = RawEntry(key: string, bytes: int, sha256: string)
  datatype RawManifest = RawManifest(
    version: int, storageClass: PathClass, count: int, bytes: int, sha256: string,
    entries: seq<RawEntry>, health: Ignored)

  datatype Manifest = Manifest(
    storageClass: ArchiveClass, evidence: Evidence, entries: seq<Entry>, health: Ignored)

  predicate IsSafe(n: int) {
    0 <= n <= MAX_SAFE_INTEGER
  }

  // ---------- aggregate evidence ----------

  function Line(e: Entry): string {
    e.sha256 + " " + Digits(e.bytes, 10) + " " + e.key + "\n"
  }

  function AggregateText(entries: seq<Entry>): string {
    if entries == [] then "" else AggregateText(entries[..|entries| - 1]) + Line(entries[|entries| - 1])
  }

  function TotalBytes(entries: seq<Entry>): nat {
    if entries == [] then 0 else TotalBytes(entries[..|entries| - 1]) + entries[|entries| - 1].bytes
  }

  function EvidenceOf(entries: seq<Entry>, sha: Sha): Evidence {
    Evidence(|entries|, TotalBytes(entries), sha.ofText(AggregateText(entries)))
  }

  method Aggregate(entries: seq<Entry>, sha: Sha) returns (evidence: Evidence)
    ensures evidence == EvidenceOf(entries, sha)
  {
    var hashed, bytes := "", 0;
    for i := 0 to |entries|
      invariant hashed == AggregateText(entries[..i]) && bytes == TotalBytes(entries[..i])
    {
      assert entries[..i + 1][..i] == entries[..i];
      bytes := bytes + entries[i].bytes;
      hashed := hashed + Line(entries[i]);
    }
    assert entries[..|entries|] == entries;
    return Evidence(|entries|, bytes, sha.ofText(hashed));
  }

  /** What a line needs for its fields to be told apart. */
  predicate Readable(e: Entry) {
    |e.sha256| == 64 && '\n' !in e.key
  }

  lemma DecimalHasNoSpace(n: nat)
    ensures ' ' !in Digits(n, 10) && '\n' !in Digits(n, 10)
  {
    assert !IsDigit(' ', 10) && !IsDigit('\n', 10);
  }

  lemma LineShape(e: Entry, x: string)
    ensures Line(e) + x == e.sha256 + ([' '] + (Digits(e.bytes, 10) + [' '] + (e.key + ['\n'] + x)))
  {
    var d := Digits(e.bytes, 10);
    assert Line(e) == e.sha256 + ([' '] + (d + [' '] + (e.key + ['\n'])));
    assert e.key + ['\n'] + x == (e.key + ['\n']) + x;
  }

  lemma SameLength(a: string, x: string, b: string, y: string)
    requires |a| == |b| && a + x == b + y
    ensures a == b && x == y
  {
    assert a == (a + x)[..|a|] && b == (b + y)[..|b|];
    assert x == (a + x)[|a|..] && y == (b + y)[|b|..];
  }

  /** The text after a line, and the line's three fields, are determined by the whole. */
  lemma LineUnambiguous(a: Entry, x: string, b: Entry, y: string)
    requires Readable(a) && Readable(b) && Line(a) + x == Line(b) + y
    ensures a == b && x == y
  {
    var da, db := Digits(a.bytes, 10), Digits(b.bytes, 10);
    LineShape(a, x);
    LineShape(b, y);
    DecimalHasNoSpace(a.bytes);
    DecimalHasNoSpace(b.bytes);
    ValueDigits(a.bytes, 10);
    ValueDigits(b.bytes, 10);
    hide Line, Digits, Value;
    var ta, tb := a.key + ['\n'] + x, b.key + ['\n'] + y;
    SameLength(a.sha256, [' '] + (da + [' '] + ta), b.sha256, [' '] + (db + [' '] + tb));
    SameLength([' '], da + [' '] + ta, [' '], db + [' '] + tb);
    FirstSeparator(da, ta, db, tb, ' ');
    FirstSeparator(a.key, x, b.key, y, '\n');
  }

  lemma {:induction false} AggregateTextFront(entries: seq<Entry>)
    requires entries != []
    ensures AggregateText(entries) == Line(entries[0]) + AggregateText(entries[1..])
  {
    hide Line;
    var n := |entries| - 1;
    LastLine(entries);
    if n == 0 {
      assert entries[..0] == [] && entries[1..] == [];
    } else {
      LastLine(entries[1..]);
      hide AggregateText;
      assert entries[..n][1..] == entries[1..][..n - 1];
      AggregateTextFront(entries[..n]);
    }
  }

  lemma LastLine(entries: seq<Entry>)
    requires entries != []
    ensures AggregateText(entries) == AggregateText(entries[..|entries| - 1]) + Line(entries[|entries| - 1])
    ensures AggregateText([]) == ""
  {
  }

  lemma LineNotEmpty(entries: seq<Entry>)
    ensures AggregateText(entries) == "" <==> entries == []
  {
  }

  /** Entry lists with the same aggregate text are the same list. */
  lemma {:induction false} AggregateTextUnambiguous(a: seq<Entry>, b: seq<Entry>)
    requires forall i | 0 <= i < |a| :: Readable(a[i])
    requires forall i | 0 <= i < |b| :: Readable(b[i])
    requires AggregateText(a) == AggregateText(b)
    ensures a == b
  {
    LineNotEmpty(a);
    LineNotEmpty(b);
    hide Line, Readable;
    if a != [] {
      AggregateTextFront(a);
    }
    if b != [] {
      AggregateTextFront(b);
    }
    if a == [] || b == [] {
    } else {
      LineUnambiguous(a[0], AggregateText(a[1..]), b[0], AggregateText(b[1..]));
      AggregateTextUnambiguous(a[1..], b[1..]);
      assert a == [a[0]] + a[1..] && b == [b[0]] + b[1..];
    }
  }

  // ---------- validation ----------

  function EntryKeys(entries: seq<Entry>): (keys: seq<string>)
    ensures |keys| == |entries| && forall i | 0 <= i < |keys| :: keys[i] == entries[i].key
  {
    seq(|entries|, i requires 0 <= i < |entries| => entries[i].key)
  }

  function SentinelEntry(sha: Sha): Entry {
    Entry(Join(SENTINEL, '/'), |SENTINEL_VALUE|, sha.ofBytes(Bytes(SENTINEL_VALUE)))
  }

  function Bytes(text: string): seq<Byte>
  {
    seq(|text|, i requires 0 <= i < |text| => text[i] as int % 256)
  }

  /** A publication volume holds its readiness sentinel, once and unaltered. */
  ghost predicate SentinelValid(storageClass: ArchiveClass, entries: seq<Entry>, sha: Sha) {
    storageClass == Publication ==>
      && SentinelEntry(sha) in entries
      && forall i, j | 0 <= i < j < |entries| ::
           entries[i].key != SentinelEntry(sha).key || entries[j].key != entries[i].key
  }

  method AssertPublicationSentinel(storageClass: ArchiveClass, entries: seq<Entry>, sha: Sha)
      returns (r: Result<(), ArchiveError>)
    ensures r.Ok? <==> SentinelValid(storageClass, entries, sha)
  {
    hide SentinelEntry;
    if storageClass != Publication {
      return Ok(());
    }
    var matches: seq<Entry> := [];
    ghost var at: seq<int> := [];
    for i := 0 to |entries|
      invariant |at| == |matches|
      invariant forall k | 0 <= k < |at| ::
        0 <= at[k] < i && entries[at[k]] == matches[k] && matches[k].key == SentinelEntry(sha).key
      invariant forall k, l | 0 <= k < l < |at| :: at[k] < at[l]
      invariant forall j | 0 <= j < i && entries[j].key == SentinelEntry(sha).key :: j in at
    {
      if entries[i].key == SentinelEntry(sha).key {
        matches, at := matches + [entries[i]], at + [i];
      }
    }
    if |matches| != 1 {
      assert |matches| > 1 ==> at[0] < at[1];
      return Err(SentinelInvalid);
    }
    if matches[0] != SentinelEntry(sha) {
      return Err(SentinelInvalid);
    }
    return Ok(());
  }

  ghost predicate ValidEntry(e: RawEntry, storageClass: ArchiveClass) {
    IsSafe(e.bytes) && IsDigest(e.sha256) && ClassifyLegacyStoragePath(e.key) == Some(storageClass)
  }

  function Checked(entries: seq<RawEntry>): (checked: seq<Entry>)
    requires forall i | 0 <= i < |entries| :: entries[i].bytes >= 0
    ensures |checked| == |entries|
    ensures forall i | 0 <= i < |entries| ::
      checked[i] == Entry(entries[i].key, entries[i].bytes, entries[i].sha256)
  {
    seq(|entries|, i requires 0 <= i < |entries| => Entry(entries[i].key, entries[i].bytes, entries[i].sha256))
  }

  ghost predicate ValidEntries(entries: seq<RawEntry>, storageClass: ArchiveClass) {
    && (forall i | 0 <= i < |entries| :: ValidEntry(entries[i], storageClass))
    && Ascending(EntryKeys(Checked(entries)))
  }

  ghost predicate ValidManifest(raw: RawManifest, storageClass: ArchiveClass, sha: Sha) {
    && raw.version == 1 && raw.storageClass == storageClass
    && IsSafe(raw.count) && IsSafe(raw.bytes) && IsDigest(raw.sha256)
    && |raw.entries| <= MAXIMUM_ENTRIES
    && ValidEntries(raw.entries, storageClass)
    && SentinelValid(storageClass, Checked(raw.entries), sha)
    && Evidence(raw.count, raw.bytes, raw.sha256) == EvidenceOf(Checked(raw.entries), sha)
    && IsSafe(raw.health.count) && IsSafe(raw.health.bytes)
    && (storageClass == Staging || raw.health == Ignored(0, 0))
  }

  method ValidateEntries(entries: seq<RawEntry>, storageClass: ArchiveClass)
      returns (r: Result<seq<Entry>, ArchiveError>)
    ensures r.Ok? <==> ValidEntries(entries, storageClass)
    ensures r.Ok? ==> r.value == Checked(entries)
  {
    hide ClassifyLegacyStoragePath, IsDigest, Less;
    var checked: seq<Entry> := [];
    var previous: Option<string> := None;
    for i := 0 to |entries|
      invariant |checked| == i
      invariant forall j | 0 <= j < i :: ValidEntry(entries[j], storageClass)
      invariant forall j | 0 <= j < i :: checked[j] == Entry(entries[j].key, entries[j].bytes, entries[j].sha256)
      invariant previous == if i == 0 then None else Some(entries[i - 1].key)
      invariant forall j | 0 < j < i :: Less(entries[j - 1].key, entries[j].key)
    {
      var e := entries[i];
      var classified := ClassifyLegacyStoragePath(e.key);
      if !IsSafe(e.bytes) || !IsDigest(e.sha256) || classified != Some(storageClass) {
        assert !ValidEntry(entries[i], storageClass);
        return Err(
          if !IsSafe(e.bytes) || !IsDigest(e.sha256) then InvalidEntry
          else if classified == None then UnknownKey
          else if classified == Some(Scratch) then MisroutedKey
          else InvalidEntry);
      }
      if previous.Some? && !IsLess(previous.value, e.key) {
        if forall j | 0 <= j < |entries| :: ValidEntry(entries[j], storageClass) {
          assert !Less(EntryKeys(Checked(entries))[i - 1], EntryKeys(Checked(entries))[i]);
        }
        return Err(InvalidEntry);
      }
      checked := checked + [Entry(e.key, e.bytes, e.sha256)];
      previous := Some(e.key);
    }
    return Ok(checked);
  }

  method ValidateManifest(raw: RawManifest, storageClass: ArchiveClass, sha: Sha)
      returns (r: Result<Manifest, ArchiveError>)
    ensures r.Ok? <==> ValidManifest(raw, storageClass, sha)
    ensures r.Ok? ==>
      r.value == Manifest(storageClass, EvidenceOf(Checked(raw.entries), sha), Checked(raw.entries), raw.health)
  {
    hide ValidEntries, SentinelValid, IsDigest;
    if raw.version != 1 || raw.storageClass != storageClass || !IsSafe(raw.count) || !IsSafe(raw.bytes)
      || !IsDigest(raw.sha256) || |raw.entries| > MAXIMUM_ENTRIES {
      return Err(InvalidManifest);
    }
    var checked := ValidateEntries(raw.entries, storageClass);
    if checked.Err? {
      return Err(checked.error);
    }
    var entries := checked.value;
    var sentinel := AssertPublicationSentinel(storageClass, entries, sha);
    if sentinel.Err? {
      return Err(sentinel.error);
    }
    var evidence := Aggregate(entries, sha);
    if evidence.count != raw.count || evidence.bytes != raw.bytes || evidence.sha256 != raw.sha256 {
      return Err(InvalidAggregate);
    }
    if !IsSafe(raw.health.count) || !IsSafe(raw.health.bytes)
      || (storageClass != Staging && (raw.health.count != 0 || raw.health.bytes != 0)) {
      return Err(InvalidIgnored);
    }
    return Ok(Manifest(storageClass, evidence, entries, raw.health));
  }

  // ---------- what a validated manifest guarantees ----------

  lemma LegalKeyReadable(storageClass: ArchiveClass, key: string)
    requires ClassifyLegacyStoragePath(key) == Some(storageClass)
    ensures '\n' !in key
  {
    LegalKeyEncodable(storageClass, key);
    assert forall k | 0 <= k < |key| :: key[k] != '\n';
  }

  /** Two accepted manifests that agree on the aggregate digest list the same entries, or their two
      aggregate texts are a collision of the digest. */
  lemma AggregatePinsEntries(a: RawManifest, b: RawManifest, storageClass: ArchiveClass, sha: Sha)
    requires ValidManifest(a, storageClass, sha) && ValidManifest(b, storageClass, sha)
    requires a.sha256 == b.sha256
    ensures a.entries != b.entries ==>
      var s, t := AggregateText(Checked(a.entries)), AggregateText(Checked(b.entries));
      s != t && sha.ofText(s) == sha.ofText(t)
  {
    var x, y := Checked(a.entries), Checked(b.entries);
    if AggregateText(x) == AggregateText(y) {
      forall i | 0 <= i < |x| ensures Readable(x[i]) {
        LegalKeyReadable(storageClass, a.entries[i].key);
      }
      forall i | 0 <= i < |y| ensures Readable(y[i]) {
        LegalKeyReadable(storageClass, b.entries[i].key);
      }
      AggregateTextUnambiguous(x, y);
      forall i | 0 <= i < |x| ensures a.entries[i] == b.entries[i] {
        assert x[i] == y[i];
      }
    }
  }

  // ---------- the text and the figures, independently ----------

  function Lines(entries: seq<Entry>): (lines: seq<string>)
    ensures |lines| == |entries|
    ensures forall i | 0 <= i < |lines| ::
      lines[i] == Join([entries[i].sha256, Digits(entries[i].bytes, 10), entries[i].key], ' ')
  {
    seq(|entries|, i requires 0 <= i < |entries| =>
      Join([entries[i].sha256, Digits(entries[i].bytes, 10), entries[i].key], ' '))
  }

  /** The hashed text is one line an entry, digest, decimal size and key separated by blanks, each line ended. */
  lemma {:induction false} AggregateIsLines(entries: seq<Entry>)
    requires forall i | 0 <= i < |entries| :: '\n' !in entries[i].key && '\n' !in entries[i].sha256
    ensures Split(AggregateText(entries), '\n') == Lines(entries) + [""]
  {
    hide Line, Join, Digits, Split, AggregateText;
    if entries == [] {
      NoLines();
      assert Lines(entries) + [""] == [""];
    } else {
      AggregateIsLines(entries[1..]);
      AggregateTextFront(entries);
      SplitLine(entries[0], AggregateText(entries[1..]));
      assert Lines(entries) == [Lines(entries)[0]] + Lines(entries[1..]);
    }
  }

  lemma NoLines()
    ensures Split(AggregateText([]), '\n') == [""]
  {
  }

  lemma SplitLine(e: Entry, rest: string)
    requires '\n' !in e.key && '\n' !in e.sha256
    ensures Split(Line(e) + rest, '\n') == [Join([e.sha256, Digits(e.bytes, 10), e.key], ' ')] + Split(rest, '\n')
  {
    hide Line, Join, Digits, Split;
    DecimalHasNoSpace(e.bytes);
    LineIsJoined(e);
    var line := Join([e.sha256, Digits(e.bytes, 10), e.key], ' ');
    SplitHead(line, rest, '\n');
    assert Line(e) + rest == line + ['\n'] + rest;
  }

  lemma LineIsJoined(e: Entry)
    ensures Line(e) == Join([e.sha256, Digits(e.bytes, 10), e.key], ' ') + "\n"
    ensures '\n' !in e.sha256 && '\n' !in Digits(e.bytes, 10) && '\n' !in e.key ==>
      '\n' !in Join([e.sha256, Digits(e.bytes, 10), e.key], ' ')
  {
    hide Digits;
    JoinThree(e.sha256, Digits(e.bytes, 10), e.key, ' ');
  }

  lemma JoinThree(x: string, y: string, z: string, c: char)
    ensures Join([x, y, z], c) == x + [c] + y + [c] + z
  {
    assert [x, y, z][1..] == [y, z] && [y, z][1..] == [z];
    assert Join([y, z], c) == y + [c] + z;
    assert Join([x, y, z], c) == x + [c] + (y + [c] + z);
  }

  /** Sizes add up: one entry has its own, and a list has those of its parts. */
  lemma {:induction false} TotalsAdd(a: seq<Entry>, b: seq<Entry>)
    ensures TotalBytes(a + b) == TotalBytes(a) + TotalBytes(b)
    ensures forall e :: TotalBytes([e]) == e.bytes
  {
    assert forall e: Entry :: [e][..0] == [];
    if b == [] {
      assert a + b == a;
    } else {
      TotalsAdd(a, b[..|b| - 1]);
      assert (a + b)[..|a + b| - 1] == a + b[..|b| - 1];
    }
  }

  /** The sentinel, and the bounds, in figures. */
  lemma FixedFigures(sha: Sha)
    ensures SentinelEntry(sha).key == "health/publication/readiness-v1" && SentinelEntry(sha).bytes == 31
    ensures SentinelEntry(sha).sha256 == sha.ofBytes(Bytes("pale-orbit-publication-ready-v1"))
    ensures forall n :: IsSafe(n) <==> 0 <= n < Pow(2, 53)
    ensures MAXIMUM_GENERATION == Pow(2, 31) - 1 && MAXIMUM_ENTRIES == 1_000_000
  {
    hide Bytes, Join, Pow;
    JoinThree("health", "publication", "readiness-v1", '/');
    assert SENTINEL == ["health", "publication", "readiness-v1"];
    Powers();
  }

  /** A text of seven-bit characters is encoded as their codes. */
  lemma BytesAreCodes(text: string)
    requires forall k | 0 <= k < |text| :: text[k] as int < 128
    ensures |Bytes(text)| == |text| && forall k | 0 <= k < |text| :: Bytes(text)[k] == text[k] as int
  {
  }

  lemma Powers()
    ensures Pow(2, 31) == 2_147_483_648 && Pow(2, 53) == 9_007_199_254_740_992
  {
    assert Pow(2, 8) == 256 && Pow(2, 16) == 65_536 && Pow(2, 24) == 16_777_216;
    assert Pow(2, 31) == 2_147_483_648;
    assert Pow(2, 40) == 1_099_511_627_776;
    assert Pow(2, 47) == 140_737_488_355_328;
  }
}
