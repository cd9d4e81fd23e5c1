/** The archive stream: what the writer yields, what the verifying and the extracting passes
    accept, and the volume the extracting pass fills. */
module Archive {
  import opened Wrappers
  import opened Text
  import opened Tar
  import opened StreamReader

  // ---------- entries and digests ----------

  type Digest = s: string | IsDigest(s) witness seq(64, _ => '0')

  /** SHA-256 in hexadecimal, uninterpreted: of raw bytes, and of a text encoded as UTF-8. */
  datatype Sha = Sha(ofBytes: seq<Byte> -> Digest, ofText: string -> Digest)

  datatype Entry = Entry(key: string, bytes: nat, sha256: string)

  function Padding(bytes: nat): nat {
    (BLOCK_BYTES - bytes % BLOCK_BYTES) % BLOCK_BYTES
  }

  /** The least number of whole blocks that holds so many bytes, in bytes. */
  predicate IsBlockEnd(n: int, bytes: nat) {
    n % 512 == 0 && bytes <= n < bytes + 512
  }

  lemma PaddingFills(bytes: nat)
    ensures IsBlockEnd(bytes + Padding(bytes), bytes)
    ensures forall n: nat | IsBlockEnd(n, bytes) :: n == bytes + Padding(bytes)
  {
    var r := bytes % BLOCK_BYTES;
    assert bytes == bytes / BLOCK_BYTES * BLOCK_BYTES + r;
  }

  /** Content and padding taken off a stream are whole blocks. */
  lemma TakenIsBlocks(s: seq<Byte>, bytes: nat)
    ensures bytes + Padding(bytes) <= |s| ==> IsBlockEnd(|s| - |s[bytes + Padding(bytes)..]|, bytes)
  {
    PaddingFills(bytes);
  }

  function EntrySize(e: Entry): (n: nat)
    ensures n >= BLOCK_BYTES
  {
    BLOCK_BYTES + e.bytes + Padding(e.bytes)
  }

  predicate AllZero(s: seq<Byte>) {
    forall k | 0 <= k < |s| :: s[k] == 0
  }

  // ---------- what the passes accept ----------

  /** The bytes after an entry's header: the content, its digest, and zero padding. */
  ghost predicate BodyAccepted(s: seq<Byte>, e: Entry, sha: Sha) {
    && e.bytes + Padding(e.bytes) <= |s|
    && sha.ofBytes(s[..e.bytes]) == e.sha256
    && AllZero(s[e.bytes..e.bytes + Padding(e.bytes)])
  }

  ghost predicate EntryAccepted(s: seq<Byte>, e: Entry, sha: Sha) {
    && BLOCK_BYTES <= |s|
    && ParseTarHeader(s[..BLOCK_BYTES]) == Ok(Header(e.key, e.bytes))
    && BodyAccepted(s[BLOCK_BYTES..], e, sha)
  }

  /** The stream is the listed entries, in order, two blocks of zeros, and nothing else. */
  ghost predicate Accepts(s: seq<Byte>, entries: seq<Entry>, sha: Sha) {
    if entries == [] then |s| == 2 * BLOCK_BYTES && AllZero(s)
    else EntryAccepted(s, entries[0], sha) && Accepts(s[EntrySize(entries[0])..], entries[1..], sha)
  }

  /** The files an accepted stream carries. */
  ghost function Files(s: seq<Byte>, entries: seq<Entry>): map<string, seq<Byte>> {
    if entries == [] || |s| < EntrySize(entries[0]) then map[]
    else
      map[entries[0].key := ContentOf(s, entries[0])] + Files(s[EntrySize(entries[0])..], entries[1..])
  }

  ghost function ContentOf(s: seq<Byte>, e: Entry): seq<Byte>
    requires EntrySize(e) <= |s|
  {
    s[BLOCK_BYTES..BLOCK_BYTES + e.bytes]
  }

  // ---------- the verifying pass ----------

  /** Reads `e.bytes` bytes in bounded pieces, accumulating what is hashed. */
  method ReadContent(reader: ExactStreamReader, bytes: nat) returns (r: Result<seq<Byte>, ArchiveError>)
    requires reader.Valid()
    modifies reader
    ensures reader.Valid()
    ensures NonEmptyChunks(old(reader.stream)) ==> NonEmptyChunks(reader.stream)
    ensures r.Ok? <==> bytes <= |old(reader.Remaining())|
    ensures r.Ok? ==> r.value == old(reader.Remaining())[..bytes]
    ensures r.Ok? ==> reader.Remaining() == old(reader.Remaining())[bytes..]
  {
    ghost var s := reader.Remaining();
    var remaining := bytes;
    var hashed: seq<Byte> := [];
    while remaining > 0
      invariant reader.Valid() && 0 <= remaining <= bytes
      invariant NonEmptyChunks(old(reader.stream)) ==> NonEmptyChunks(reader.stream)
      invariant bytes - remaining <= |s|
      invariant hashed == s[..bytes - remaining] && reader.Remaining() == s[bytes - remaining..]
      decreases remaining
    {
      var chunk := reader.ReadExact(if remaining < 64 * 1024 then remaining else 64 * 1024);
      if chunk.Err? {
        return Err(chunk.error);
      }
      hashed := hashed + chunk.value;
      remaining := remaining - |chunk.value|;
    }
    return Ok(hashed);
  }

  method CheckPadding(reader: ExactStreamReader, bytes: nat) returns (r: Result<(), ArchiveError>)
    requires reader.Valid()
    modifies reader
    ensures reader.Valid()
    ensures NonEmptyChunks(old(reader.stream)) ==> NonEmptyChunks(reader.stream)
    ensures r.Ok? <==>
      && Padding(bytes) <= |old(reader.Remaining())|
      && AllZero(old(reader.Remaining())[..Padding(bytes)])
    ensures r.Ok? ==> reader.Remaining() == old(reader.Remaining())[Padding(bytes)..]
  {
    var padding := Padding(bytes);
    if padding != 0 {
      var pad := reader.ReadExact(padding);
      if pad.Err? {
        return Err(pad.error);
      }
      if !AllZero(pad.value) {
        return Err(InvalidPadding);
      }
    }
    return Ok(());
  }

  method VerifyArchivedEntry(reader: ExactStreamReader, expected: Entry, sha: Sha)
      returns (r: Result<(), ArchiveError>)
    requires reader.Valid()
    modifies reader
    ensures reader.Valid()
    ensures NonEmptyChunks(old(reader.stream)) ==> NonEmptyChunks(reader.stream)
    ensures r.Ok? <==> BodyAccepted(old(reader.Remaining()), expected, sha)
    ensures r.Ok? ==> reader.Remaining() == old(reader.Remaining())[expected.bytes + Padding(expected.bytes)..]
    ensures r.Ok? ==> IsBlockEnd(|old(reader.Remaining())| - |reader.Remaining()|, expected.bytes)
  {
    hide IsBlockEnd;
    ghost var s := reader.Remaining();
    TakenIsBlocks(s, expected.bytes);
    var content := ReadContent(reader, expected.bytes);
    if content.Err? {
      return Err(content.error);
    }
    if sha.ofBytes(content.value) != expected.sha256 {
      return Err(DigestMismatch);
    }
    r := CheckPadding(reader, expected.bytes);
    assert Padding(expected.bytes) <= |s[expected.bytes..]| ==>
      s[expected.bytes..][..Padding(expected.bytes)] == s[expected.bytes..expected.bytes + Padding(expected.bytes)];
  }

  /** Header and body of the next entry, as the verifying pass reads them. */
  method VerifyNextEntry(reader: ExactStreamReader, expected: Entry, sha: Sha) returns (r: Result<(), ArchiveError>)
    requires reader.Valid()
    modifies reader
    ensures reader.Valid()
    ensures NonEmptyChunks(old(reader.stream)) ==> NonEmptyChunks(reader.stream)
    ensures r.Ok? <==> EntryAccepted(old(reader.Remaining()), expected, sha)
    ensures r.Ok? ==> reader.Remaining() == old(reader.Remaining())[EntrySize(expected)..]
  {
    var header := reader.ReadExact(BLOCK_BYTES);
    if header.Err? {
      return Err(header.error);
    }
    var actual := ParseTarHeader(header.value);
    if actual.Err? {
      return Err(BadHeader(actual.error));
    }
    if actual.value.key != expected.key || actual.value.bytes != expected.bytes {
      return Err(EntryMismatch);
    }
    r := VerifyArchivedEntry(reader, expected, sha);
  }

  method VerifyArchiveContents(reader: ExactStreamReader, entries: seq<Entry>, sha: Sha)
      returns (r: Result<(), ArchiveError>)
    requires reader.Valid() && NonEmptyChunks(reader.stream)
    modifies reader
    ensures r.Ok? <==> Accepts(old(reader.Remaining()), entries, sha)
  {
    for i := 0 to |entries|
      invariant reader.Valid() && NonEmptyChunks(reader.stream)
      invariant Accepts(old(reader.Remaining()), entries, sha) <==> Accepts(reader.Remaining(), entries[i..], sha)
    {
      assert entries[i..][1..] == entries[i + 1..];
      var next := VerifyNextEntry(reader, entries[i], sha);
      if next.Err? {
        return next;
      }
    }
    r := CheckTerminator(reader);
  }

  /** Exactly two blocks of zeros, then the end of the stream. */
  method CheckTerminator(reader: ExactStreamReader) returns (r: Result<(), ArchiveError>)
    requires reader.Valid() && NonEmptyChunks(reader.stream)
    modifies reader
    ensures r.Ok? <==> |old(reader.Remaining())| == 2 * BLOCK_BYTES && AllZero(old(reader.Remaining()))
  {
    ghost var s := reader.Remaining();
    var terminator := reader.ReadExact(2 * BLOCK_BYTES);
    if terminator.Err? {
      return Err(terminator.error);
    }
    if !AllZero(terminator.value) {
      return Err(InvalidTerminator);
    }
    assert |s| == 2 * BLOCK_BYTES ==> s == terminator.value;
    r := reader.AssertEnd();
  }

  // ---------- the writer ----------

  /** An inventoried entry and the chunks its file yields when it is read for the archive. */
  datatype Source = Source(entry: Entry, chunks: seq<seq<Byte>>)

  ghost predicate Faithful(src: Source, sha: Sha) {
    |Concat(src.chunks)| == src.entry.bytes && sha.ofBytes(Concat(src.chunks)) == src.entry.sha256
  }

  ghost predicate Storable(e: Entry) {
    Encodable(e.key) && e.bytes < Pow(8, 11)
  }

  ghost predicate WrittenEntry(s: seq<Byte>, src: Source) {
    && |s| == EntrySize(src.entry)
    && IsEntryHeader(s[..BLOCK_BYTES], src.entry.key, src.entry.bytes)
    && s[BLOCK_BYTES..BLOCK_BYTES + src.entry.bytes] == Concat(src.chunks)
    && AllZero(s[BLOCK_BYTES + src.entry.bytes..])
  }

  ghost predicate Written(s: seq<Byte>, sources: seq<Source>) {
    if sources == [] then s == []
    else
      var n := EntrySize(sources[0].entry);
      n <= |s| && WrittenEntry(s[..n], sources[0]) && Written(s[n..], sources[1..])
  }

  ghost predicate IsArchive(s: seq<Byte>, sources: seq<Source>) {
    && 2 * BLOCK_BYTES <= |s|
    && Written(s[..|s| - 2 * BLOCK_BYTES], sources)
    && AllZero(s[|s| - 2 * BLOCK_BYTES..])
  }

  lemma WrittenOne(t: seq<Byte>, src: Source)
    requires WrittenEntry(t, src)
    ensures Written(t, [src])
  {
    assert |t| == EntrySize(src.entry);
    hide WrittenEntry, EntrySize;
    assert t[..|t|] == t && t[|t|..] == [] && [src][1..] == [];
  }

  lemma {:induction false} WrittenAppend(s: seq<Byte>, sources: seq<Source>, t: seq<Byte>, src: Source)
    requires Written(s, sources) && WrittenEntry(t, src)
    ensures Written(s + t, sources + [src])
  {
    hide WrittenEntry, EntrySize;
    if sources == [] {
      assert s + t == t && sources + [src] == [src];
      WrittenOne(t, src);
    } else {
      var n := EntrySize(sources[0].entry);
      assert (s + t)[..n] == s[..n] && (s + t)[n..] == s[n..] + t;
      assert (sources + [src])[1..] == sources[1..] + [src];
      WrittenAppend(s[n..], sources[1..], t, src);
    }
  }

  method TarEntry(src: Source, sha: Sha) returns (r: Result<seq<seq<Byte>>, ArchiveError>)
    ensures r.Ok? <==> Storable(src.entry) && Faithful(src, sha)
    ensures r.Ok? ==> WrittenEntry(Concat(r.value), src)
    ensures r.Ok? ==> IsBlockEnd(|Concat(r.value)| - BLOCK_BYTES, src.entry.bytes)
  {
    hide IsEntryHeader, Encodable, WrittenEntry, IsBlockEnd, Concat, AllZero;
    var header := TarHeader(src.entry.key, src.entry.bytes);
    if header.Err? {
      return Err(BadHeader(header.error));
    }
    var yielded := [header.value[..]];
    ghost var h := header.value[..];
    OneChunk(h);
    AllChunks(src.chunks);
    var content: seq<Byte> := [];
    for k := 0 to |src.chunks|
      invariant content + Concat(src.chunks[k..]) == Concat(src.chunks)
      invariant Concat(yielded) == h + content
    {
      NextChunk(src.chunks, k);
      Regroup(content, src.chunks[k], Concat(src.chunks[k + 1..]));
      Regroup(h, content, src.chunks[k]);
      ConcatAppend(yielded, src.chunks[k]);
      yielded := yielded + [src.chunks[k]];
      content := content + src.chunks[k];
    }
    if |content| != src.entry.bytes || sha.ofBytes(content) != src.entry.sha256 {
      return Err(ChangedDuringCapture);
    }
    var padding := Padding(src.entry.bytes);
    var zeros := seq(padding, _ => 0);
    if padding != 0 {
      ConcatAppend(yielded, zeros);
      yielded := yielded + [zeros];
    }
    assert Concat(yielded) == h + content + zeros;
    EntryIsWritten(h, content, zeros, src);
    return Ok(yielded);
  }

  lemma OneChunk(chunk: seq<Byte>)
    ensures Concat([chunk]) == chunk + []
  {
    assert [chunk][1..] == [];
  }

  lemma AllChunks(chunks: seq<seq<Byte>>)
    ensures [] + Concat(chunks[0..]) == Concat(chunks) && Concat(chunks[|chunks|..]) == []
    ensures forall s: seq<Byte> :: s + Concat(chunks[|chunks|..]) == s
  {
    assert chunks[0..] == chunks && chunks[|chunks|..] == [];
  }

  lemma NextChunk(chunks: seq<seq<Byte>>, k: nat)
    requires k < |chunks|
    ensures Concat(chunks[k..]) == chunks[k] + Concat(chunks[k + 1..])
  {
    assert chunks[k..][1..] == chunks[k + 1..];
  }

  lemma Regroup(a: seq<Byte>, b: seq<Byte>, c: seq<Byte>)
    ensures a + (b + c) == a + b + c
  {
  }

  lemma EntryIsWritten(h: seq<Byte>, content: seq<Byte>, zeros: seq<Byte>, src: Source)
    requires IsEntryHeader(h, src.entry.key, src.entry.bytes) && |h| == BLOCK_BYTES
    requires content == Concat(src.chunks) && |content| == src.entry.bytes
    requires |zeros| == Padding(src.entry.bytes) && forall k | 0 <= k < |zeros| :: zeros[k] == 0
    ensures WrittenEntry(h + content + zeros, src)
    ensures IsBlockEnd(|h + content + zeros| - BLOCK_BYTES, src.entry.bytes)
  {
    PaddingFills(src.entry.bytes);
    hide IsEntryHeader;
    var s := h + content + zeros;
    assert s[..BLOCK_BYTES] == h && s[BLOCK_BYTES..BLOCK_BYTES + |content|] == content;
    assert s[BLOCK_BYTES + |content|..] == zeros;
  }

  lemma {:induction false} ConcatBoth(a: seq<seq<Byte>>, b: seq<seq<Byte>>)
    ensures Concat(a + b) == Concat(a) + Concat(b)
  {
    if a == [] {
      assert a + b == b;
    } else {
      ConcatBoth(a[1..], b);
      assert (a + b)[1..] == a[1..] + b;
      assert a[0] + (Concat(a[1..]) + Concat(b)) == Concat(a) + Concat(b);
    }
  }

  method TarContents(sources: seq<Source>, sha: Sha) returns (r: Result<seq<seq<Byte>>, ArchiveError>)
    ensures r.Ok? <==> forall i | 0 <= i < |sources| :: Storable(sources[i].entry) && Faithful(sources[i], sha)
    ensures r.Ok? ==> IsArchive(Concat(r.value), sources)
  {
    hide WrittenEntry, Storable, Faithful, Written, IsArchive;
    var yielded: seq<seq<Byte>> := [];
    NothingWritten();
    for i := 0 to |sources|
      invariant forall j | 0 <= j < i :: Storable(sources[j].entry) && Faithful(sources[j], sha)
      invariant Written(Concat(yielded), sources[..i])
    {
      var entry := TarEntry(sources[i], sha);
      if entry.Err? {
        return entry;
      }
      WrittenAppend(Concat(yielded), sources[..i], Concat(entry.value), sources[i]);
      ConcatBoth(yielded, entry.value);
      assert sources[..i + 1] == sources[..i] + [sources[i]];
      yielded := yielded + entry.value;
    }
    var terminator := seq(2 * BLOCK_BYTES, _ => 0);
    ConcatAppend(yielded, terminator);
    assert sources[..|sources|] == sources;
    ArchiveEnds(Concat(yielded), terminator, sources);
    return Ok(yielded + [terminator]);
  }

  lemma NothingWritten()
    ensures Written(Concat([]), [])
  {
  }

  lemma ArchiveEnds(body: seq<Byte>, terminator: seq<Byte>, sources: seq<Source>)
    requires Written(body, sources) && |terminator| == 2 * BLOCK_BYTES && AllZero(terminator)
    ensures IsArchive(body + terminator, sources)
  {
    hide Written;
    assert (body + terminator)[..|body|] == body && (body + terminator)[|body|..] == terminator;
  }

  // ---------- round trip ----------

  function Entries(sources: seq<Source>): (entries: seq<Entry>)
    ensures |entries| == |sources|
    ensures forall i | 0 <= i < |sources| :: entries[i] == sources[i].entry
  {
    seq(|sources|, i requires 0 <= i < |sources| => sources[i].entry)
  }

  function SourceFiles(sources: seq<Source>): map<string, seq<Byte>> {
    if sources == [] then map[]
    else map[sources[0].entry.key := Concat(sources[0].chunks)] + SourceFiles(sources[1..])
  }

  /** A key whose split leaves the name field empty; the header parser refuses it. */
  predicate Nameless(key: string) {
    100 < |key| <= 156 && key[|key| - 1] == '/'
  }

  predicate AllNamed(sources: seq<Source>) {
    forall i | 0 <= i < |sources| :: !Nameless(sources[i].entry.key)
  }

  ghost predicate AllFaithful(sources: seq<Source>, sha: Sha) {
    forall i | 0 <= i < |sources| :: Faithful(sources[i], sha)
  }

  /** What the writer yields is accepted, unless some key is split with an empty name: exactly
      such a stream is refused. */
  lemma {:induction false} ArchiveAccepted(s: seq<Byte>, sources: seq<Source>, sha: Sha)
    requires IsArchive(s, sources) && AllFaithful(sources, sha)
    ensures Accepts(s, Entries(sources), sha) <==> AllNamed(sources)
    decreases |sources|
  {
    if sources == [] {
      assert s[|s| - 2 * BLOCK_BYTES..] == s;
    } else {
      var n, e := EntrySize(sources[0].entry), Entries(sources);
      ArchiveTail(s, sources);
      WrittenEntryAccepted(s, sources[0], sha);
      AllNamedFront(sources);
      assert AllFaithful(sources[1..], sha);
      assert e[1..] == Entries(sources[1..]);
      hide WrittenEntry, EntryAccepted, Faithful, IsArchive, AllNamed, AllFaithful, EntrySize, Nameless, AllZero;
      ArchiveAccepted(s[n..], sources[1..], sha);
      assert Accepts(s, e, sha) <==> EntryAccepted(s, e[0], sha) && Accepts(s[n..], e[1..], sha);
    }
  }

  /** A hundred characters and a slash: a directory's name where a file's is expected. */
  function NamelessEntry(sha: Sha): Entry {
    Entry(Repeat('a', 100) + "/", 0, sha.ofBytes([]))
  }

  /** There are storable keys that are split with an empty name. */
  lemma NamelessKeyExists(sha: Sha)
    ensures Storable(NamelessEntry(sha)) && Nameless(NamelessEntry(sha).key)
  {
    var key := NamelessEntry(sha).key;
    assert key[100] == '/' && forall k | 0 <= k < 100 :: key[k] == 'a';
    assert SplitsAt(key, 100);
    OctalLimits();
  }

  /** The writer yields an archive of that entry, an empty file, and both passes refuse it. */
  method NamelessArchive(sha: Sha) returns (archive: seq<Byte>)
    ensures IsArchive(archive, [Source(NamelessEntry(sha), [])]) && AllFaithful([Source(NamelessEntry(sha), [])], sha)
    ensures !Accepts(archive, [NamelessEntry(sha)], sha)
  {
    NamelessKeyExists(sha);
    var sources := [Source(NamelessEntry(sha), [])];
    assert Faithful(sources[0], sha);
    hide IsArchive, Storable, Nameless, Accepts, Faithful, NamelessEntry;
    var yielded := TarContents(sources, sha);
    archive := Concat(yielded.value);
    ArchiveAccepted(archive, sources, sha);
    assert Nameless(sources[0].entry.key);
    assert Entries(sources) == [NamelessEntry(sha)];
  }

  lemma AllNamedFront(sources: seq<Source>)
    requires sources != []
    ensures AllNamed(sources) <==> !Nameless(sources[0].entry.key) && AllNamed(sources[1..])
  {
    hide Nameless;
    assert forall i | 0 < i < |sources| :: sources[i] == sources[1..][i - 1];
  }

  /** What the writer yields carries exactly the files it was made from. */
  lemma {:induction false} ArchiveCarriesFiles(s: seq<Byte>, sources: seq<Source>, sha: Sha)
    requires IsArchive(s, sources) && AllFaithful(sources, sha)
    ensures Files(s, Entries(sources)) == SourceFiles(sources)
    decreases |sources|
  {
    if sources != [] {
      ArchiveTail(s, sources);
      hide WrittenEntry, IsArchive, AllFaithful, EntrySize, Files, SourceFiles;
      CarriedFront(s, sources, sha);
      ArchiveCarriesFiles(s[EntrySize(sources[0].entry)..], sources[1..], sha);
    } else {
      assert Files(s, Entries(sources)) == map[];
    }
  }

  /** The first entry of an archive carries its source's content. */
  lemma CarriedFront(s: seq<Byte>, sources: seq<Source>, sha: Sha)
    requires sources != [] && AllFaithful(sources, sha) && EntrySize(sources[0].entry) <= |s|
    requires WrittenEntry(s[..EntrySize(sources[0].entry)], sources[0])
    ensures AllFaithful(sources[1..], sha)
    ensures var e := sources[0].entry;
      Files(s, Entries(sources))
        == map[e.key := Concat(sources[0].chunks)] + Files(s[EntrySize(e)..], Entries(sources[1..]))
    ensures SourceFiles(sources) == map[sources[0].entry.key := Concat(sources[0].chunks)] + SourceFiles(sources[1..])
  {
    hide WrittenEntry, EntryAccepted, Faithful;
    assert Faithful(sources[0], sha);
    WrittenEntryAccepted(s, sources[0], sha);
    assert Entries(sources)[1..] == Entries(sources[1..]);
    FilesFront(s, Entries(sources));
  }

  lemma FilesFront(s: seq<Byte>, entries: seq<Entry>)
    requires entries != [] && EntrySize(entries[0]) <= |s|
    ensures Files(s, entries) ==
            map[entries[0].key := ContentOf(s, entries[0])] + Files(s[EntrySize(entries[0])..], entries[1..])
  {
  }

  lemma ArchiveTail(s: seq<Byte>, sources: seq<Source>)
    requires IsArchive(s, sources) && sources != []
    ensures EntrySize(sources[0].entry) <= |s|
    ensures WrittenEntry(s[..EntrySize(sources[0].entry)], sources[0])
    ensures IsArchive(s[EntrySize(sources[0].entry)..], sources[1..])
  {
    hide WrittenEntry, AllZero;
    var n := EntrySize(sources[0].entry);
    var rest := s[n..];
    assert s[..|s| - 2 * BLOCK_BYTES][..n] == s[..n];
    assert s[..|s| - 2 * BLOCK_BYTES][n..] == rest[..|rest| - 2 * BLOCK_BYTES];
    assert s[|s| - 2 * BLOCK_BYTES..] == rest[|rest| - 2 * BLOCK_BYTES..];
  }

  lemma WrittenEntryAccepted(s: seq<Byte>, src: Source, sha: Sha)
    requires |s| >= EntrySize(src.entry) && WrittenEntry(s[..EntrySize(src.entry)], src) && Faithful(src, sha)
    ensures EntryAccepted(s, src.entry, sha) <==> !Nameless(src.entry.key)
    ensures s[BLOCK_BYTES..BLOCK_BYTES + src.entry.bytes] == Concat(src.chunks)
  {
    hide IsEntryHeader;
    var n, e := EntrySize(src.entry), src.entry;
    var t, body := s[..n], s[BLOCK_BYTES..];
    assert s[..BLOCK_BYTES] == t[..BLOCK_BYTES];
    HeaderRoundTrip(s[..BLOCK_BYTES], e.key, e.bytes);
    assert body[..e.bytes] == s[BLOCK_BYTES..BLOCK_BYTES + e.bytes];
    assert t[BLOCK_BYTES..BLOCK_BYTES + e.bytes] == s[BLOCK_BYTES..BLOCK_BYTES + e.bytes];
    assert body[e.bytes..e.bytes + Padding(e.bytes)] == s[BLOCK_BYTES + e.bytes..n];
    assert t[BLOCK_BYTES + e.bytes..] == s[BLOCK_BYTES + e.bytes..n];
  }

  /** One stream fits one entry list: nothing can be omitted from it, added to it or reordered. */
  lemma {:induction false} AcceptedListUnique(s: seq<Byte>, a: seq<Entry>, b: seq<Entry>, sha: Sha)
    requires Accepts(s, a, sha) && Accepts(s, b, sha)
    ensures a == b
    decreases |a|
  {
    if a != [] && b != [] {
      assert a[0] == b[0];
      AcceptedListUnique(s[EntrySize(a[0])..], a[1..], b[1..], sha);
      assert a == [a[0]] + a[1..] && b == [b[0]] + b[1..];
    } else if |s| == 2 * BLOCK_BYTES && AllZero(s) {
      ZeroBlockRejected(s[..BLOCK_BYTES]);
    }
  }
}
