/** A storage volume as files and directories, its scan, and the extracting pass that fills it. */
module Volume {
  import opened Wrappers
  import opened Tar
  import opened StreamReader
  import opened Archive
  import opened StorageKeys

  type FileMap = map<string, seq<Byte>>

  class StorageVolume {
    var files: FileMap
    var directories: set<string>

    constructor ()
      ensures IsEmpty()
    {
      files, directories := map[], {};
    }

    predicate IsEmpty()
      reads this
    {
      files == map[] && directories == {}
    }

    /** Creates every directory above the key; a file in the way is an error. */
    method MakeDirectories(key: string) returns (ok: bool)
      modifies this`directories
      ensures ok <==> Ancestors(key) !! files.Keys
      ensures directories == old(directories) + if ok then Ancestors(key) else {}
    {
      ok := Ancestors(key) !! files.Keys;
      if ok {
        directories := directories + Ancestors(key);
      }
    }

    /** Moves a finished temporary file into place; a directory in the way is an error. */
    method Rename(key: string, content: seq<Byte>) returns (ok: bool)
      modifies this`files
      ensures ok <==> key !in directories
      ensures files == if ok then old(files)[key := content] else old(files)
    {
      ok := key !in directories;
      if ok {
        files := files[key := content];
      }
    }

    method Clear()
      modifies this
      ensures IsEmpty()
    {
      files, directories := map[], {};
    }
  }

  // ---------- the extracting pass ----------

  ghost function AllAncestors(entries: seq<Entry>): set<string> {
    set i, d | 0 <= i < |entries| && d in Ancestors(entries[i].key) :: d
  }

  /** No entry's key is a directory above another's. */
  ghost predicate NoNesting(entries: seq<Entry>) {
    forall i, j | 0 <= i < |entries| && 0 <= j < |entries| :: entries[i].key !in Ancestors(entries[j].key)
  }

  /** Nothing in the volume obstructs a file of this key. */
  ghost predicate Unobstructed(volume: StorageVolume, key: string)
    reads volume
  {
    volume.files.Keys !! Ancestors(key) && key !in volume.directories
  }

  lemma NotOwnAncestor(key: string)
    ensures key !in Ancestors(key)
  {
  }

  method WriteRestoredEntry(reader: ExactStreamReader, volume: StorageVolume, expected: Entry, sha: Sha)
      returns (r: Result<(), ArchiveError>)
    requires reader.Valid()
    modifies reader, volume
    ensures reader.Valid()
    ensures NonEmptyChunks(old(reader.stream)) ==> NonEmptyChunks(reader.stream)
    ensures r.Ok? <==> old(Unobstructed(volume, expected.key)) && BodyAccepted(old(reader.Remaining()), expected, sha)
    ensures r.Ok? ==> reader.Remaining() == old(reader.Remaining())[expected.bytes + Padding(expected.bytes)..]
    ensures r.Ok? ==> IsBlockEnd(|old(reader.Remaining())| - |reader.Remaining()|, expected.bytes)
    ensures r.Ok? ==> volume.files == old(volume.files)[expected.key := old(reader.Remaining())[..expected.bytes]]
    ensures r.Ok? ==> volume.directories == old(volume.directories) + Ancestors(expected.key)
  {
    hide IsBlockEnd;
    ghost var s := reader.Remaining();
    TakenIsBlocks(s, expected.bytes);
    NotOwnAncestor(expected.key);
    hide Ancestors;
    var made := volume.MakeDirectories(expected.key);
    if !made {
      return Err(PathOccupied);
    }
    var content := ReadContent(reader, expected.bytes);
    if content.Err? {
      return Err(content.error);
    }
    if sha.ofBytes(content.value) != expected.sha256 {
      return Err(DigestMismatch);
    }
    var renamed := volume.Rename(expected.key, content.value);
    if !renamed {
      return Err(PathOccupied);
    }
    r := CheckPadding(reader, expected.bytes);
    assert Padding(expected.bytes) <= |s[expected.bytes..]| ==>
      s[expected.bytes..][..Padding(expected.bytes)] == s[expected.bytes..expected.bytes + Padding(expected.bytes)];
  }

  /** One header and body. Unlike the verifying pass it names an all-zero header before parsing it. */
  method ExtractNextEntry(reader: ExactStreamReader, volume: StorageVolume, expected: Entry, sha: Sha)
      returns (r: Result<(), ArchiveError>)
    requires reader.Valid()
    modifies reader, volume
    ensures reader.Valid()
    ensures NonEmptyChunks(old(reader.stream)) ==> NonEmptyChunks(reader.stream)
    ensures r.Ok? <==> old(Unobstructed(volume, expected.key)) && EntryAccepted(old(reader.Remaining()), expected, sha)
    ensures r.Ok? ==> EntrySize(expected) <= |old(reader.Remaining())|
    ensures r.Ok? ==> reader.Remaining() == old(reader.Remaining())[EntrySize(expected)..]
    ensures r.Ok? ==> volume.files == old(volume.files)[expected.key := ContentOf(old(reader.Remaining()), expected)]
    ensures r.Ok? ==> volume.directories == old(volume.directories) + Ancestors(expected.key)
  {
    hide AllZero, ParseTarHeader, Ancestors, Unobstructed, EntryAccepted, BodyAccepted, EntrySize, ContentOf;
    ghost var s := reader.Remaining();
    EntryParts(s, expected, sha);
    var header := reader.ReadExact(BLOCK_BYTES);
    if header.Err? {
      return Err(header.error);
    }
    if AllZero(header.value) {
      ZeroHeaderRefused(header.value);
      return Err(OmittedEntry);
    }
    var actual := ParseTarHeader(header.value);
    if actual.Err? {
      return Err(BadHeader(actual.error));
    }
    if actual.value.key != expected.key || actual.value.bytes != expected.bytes {
      return Err(EntryMismatch);
    }
    r := WriteRestoredEntry(reader, volume, expected, sha);
  }

  lemma ZeroHeaderRefused(header: seq<Byte>)
    requires |header| == BLOCK_BYTES && AllZero(header)
    ensures ParseTarHeader(header).Err?
  {
    ZeroBlockRejected(header);
  }

  /** An entry is accepted in two parts, its header and what follows. */
  lemma EntryParts(s: seq<Byte>, e: Entry, sha: Sha)
    ensures EntryAccepted(s, e, sha) <==>
      && BLOCK_BYTES <= |s|
      && ParseTarHeader(s[..BLOCK_BYTES]) == Ok(Header(e.key, e.bytes)) && BodyAccepted(s[BLOCK_BYTES..], e, sha)
    ensures BLOCK_BYTES <= |s| && BodyAccepted(s[BLOCK_BYTES..], e, sha) ==>
      && EntrySize(e) <= |s| && s[BLOCK_BYTES..][..e.bytes] == ContentOf(s, e)
      && s[BLOCK_BYTES..][e.bytes + Padding(e.bytes)..] == s[EntrySize(e)..]
  {
    hide ParseTarHeader, AllZero;
  }

  lemma NestingFound(entries: seq<Entry>, i: nat, files: set<string>, directories: set<string>)
    requires i < |entries| && files == EntryKeySet(entries[..i]) && directories == AllAncestors(entries[..i])
    ensures NoNesting(entries) ==> files !! Ancestors(entries[i].key) && entries[i].key !in directories
    ensures files !! Ancestors(entries[i].key) && entries[i].key !in directories && NoNesting(entries[..i])
      ==> NoNesting(entries[..i + 1])
    ensures AllAncestors(entries[..i + 1]) == directories + Ancestors(entries[i].key)
    ensures EntryKeySet(entries[..i + 1]) == files + {entries[i].key}
  {
    var e := entries[i];
    NotOwnAncestor(e.key);
    hide Ancestors;
    assert entries[..i + 1] == entries[..i] + [e];
    assert forall k | 0 <= k < i :: entries[..i][k] == entries[k] == entries[..i + 1][k];
    forall d | d in AllAncestors(entries[..i + 1]) ensures d in directories + Ancestors(e.key) {
      var k :| 0 <= k < i + 1 && d in Ancestors(entries[..i + 1][k].key);
    }
    forall d | d in Ancestors(e.key) ensures d in AllAncestors(entries[..i + 1]) {
      assert entries[..i + 1][i] == e;
    }
  }

  function EntryKeySet(entries: seq<Entry>): set<string> {
    set k | 0 <= k < |entries| :: entries[k].key
  }

  method ExtractArchive(reader: ExactStreamReader, volume: StorageVolume, entries: seq<Entry>, sha: Sha)
      returns (r: Result<(), ArchiveError>)
    requires reader.Valid() && NonEmptyChunks(reader.stream) && volume.IsEmpty()
    modifies reader, volume
    ensures r.Ok? <==> Accepts(old(reader.Remaining()), entries, sha) && NoNesting(entries)
    ensures r.Ok? ==> volume.files == Files(old(reader.Remaining()), entries)
    ensures r.Ok? ==> volume.directories == AllAncestors(entries)
  {
    hide EntryAccepted, EntrySize, Ancestors, NoNesting, AllZero;
    ghost var stream := reader.Remaining();
    assert entries[0..] == entries;
    assert map[] + Files(stream, entries) == Files(stream, entries);
    assert NoNesting(entries[..0]) by {
      NothingNested();
    }
    for i := 0 to |entries|
      invariant reader.Valid() && NonEmptyChunks(reader.stream)
      invariant Accepts(stream, entries, sha) <==> Accepts(reader.Remaining(), entries[i..], sha)
      invariant volume.files + Files(reader.Remaining(), entries[i..]) == Files(stream, entries)
      invariant volume.files.Keys == EntryKeySet(entries[..i])
      invariant volume.directories == AllAncestors(entries[..i])
      invariant NoNesting(entries[..i])
    {
      var e := entries[i];
      assert entries[i..][1..] == entries[i + 1..];
      ghost var s, files := reader.Remaining(), volume.files;
      NestingFound(entries, i, files.Keys, volume.directories);
      var next := ExtractNextEntry(reader, volume, e, sha);
      if next.Err? {
        return next;
      }
      FilesFront(s, entries[i..]);
      MapAssociates(files, e.key, ContentOf(s, e), Files(s[EntrySize(e)..], entries[i + 1..]));
    }
    assert entries[..|entries|] == entries;
    assert Files(reader.Remaining(), entries[|entries|..]) == map[];
    assert volume.files + map[] == volume.files;
    r := CheckTerminator(reader);
  }

  lemma NothingNested()
    ensures NoNesting([])
  {
  }

  lemma MapAssociates(files: FileMap, key: string, content: seq<Byte>, rest: FileMap)
    ensures files[key := content] + rest == files + (map[key := content] + rest)
  {
  }
}
