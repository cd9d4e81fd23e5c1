/** The archive as a picture: what the passes accept and what the writer yields, block by block. */
module ArchiveLayout {
  import opened Wrappers
  import opened Tar
  import opened StreamReader
  import opened Archive

  /** Where each entry starts, and last the terminator: at whole blocks, an entry taking one block for its
      header and the least number of whole blocks that holds its content. */
  ghost predicate AreOffsets(offsets: seq<nat>, entries: seq<Entry>) {
    && |offsets| == |entries| + 1 && offsets[0] == 0
    && forall i | 0 <= i < |entries| ::
         offsets[i] % BLOCK_BYTES == 0 && IsBlockEnd(offsets[i + 1] - offsets[i] - BLOCK_BYTES, entries[i].bytes)
  }

  /** An entry stands between the offsets: a header that reads as its key and size, content with its
      digest, and zeros. */
  ghost predicate StandsAt(s: seq<Byte>, e: Entry, sha: Sha, start: nat, end: nat) {
    && start + BLOCK_BYTES + e.bytes <= end <= |s|
    && ParseTarHeader(s[start..start + BLOCK_BYTES]) == Ok(Header(e.key, e.bytes))
    && sha.ofBytes(s[start + BLOCK_BYTES..start + BLOCK_BYTES + e.bytes]) == e.sha256
    && forall k | start + BLOCK_BYTES + e.bytes <= k < end :: s[k] == 0
  }

  ghost predicate AllStand(s: seq<Byte>, entries: seq<Entry>, sha: Sha, offsets: seq<nat>) {
    && |offsets| == |entries| + 1
    && forall i | 0 <= i < |entries| :: StandsAt(s, entries[i], sha, offsets[i], offsets[i + 1])
  }

  /** From the offset on there are two blocks of zeros and no more. */
  ghost predicate EndsAt(s: seq<Byte>, offset: nat) {
    |s| == offset + 2 * BLOCK_BYTES && forall k | offset <= k < |s| :: s[k] == 0
  }

  /** The ustar stream as a picture: entries at their offsets, then two blocks of zeros, then the end. */
  ghost predicate IsLayout(s: seq<Byte>, entries: seq<Entry>, sha: Sha, offsets: seq<nat>) {
    AreOffsets(offsets, entries) && AllStand(s, entries, sha, offsets) && EndsAt(s, offsets[|entries|])
  }

  function Later(offsets: seq<nat>, n: nat): (later: seq<nat>)
    ensures |later| == |offsets| && forall i | 0 <= i < |offsets| :: later[i] == offsets[i] + n
  {
    seq(|offsets|, i requires 0 <= i < |offsets| => offsets[i] + n)
  }

  lemma StandsFirst(s: seq<Byte>, e: Entry, sha: Sha)
    ensures EntryAccepted(s, e, sha) <==> StandsAt(s, e, sha, 0, EntrySize(e))
  {
    hide ParseTarHeader;
    if BLOCK_BYTES + e.bytes + Padding(e.bytes) <= |s| {
      var body := s[BLOCK_BYTES..];
      assert s[0..BLOCK_BYTES] == s[..BLOCK_BYTES];
      assert body[..e.bytes] == s[BLOCK_BYTES..BLOCK_BYTES + e.bytes];
      assert forall k | BLOCK_BYTES + e.bytes <= k < EntrySize(e) ::
          s[k] == body[e.bytes..e.bytes + Padding(e.bytes)][k - BLOCK_BYTES - e.bytes];
      var zeros := body[e.bytes..e.bytes + Padding(e.bytes)];
      assert forall k | 0 <= k < |zeros| :: zeros[k] == s[k + BLOCK_BYTES + e.bytes];
    }
  }

  lemma StandsLater(s: seq<Byte>, e: Entry, sha: Sha, start: nat, end: nat, n: nat)
    requires n <= |s|
    ensures StandsAt(s[n..], e, sha, start, end) <==> StandsAt(s, e, sha, start + n, end + n)
  {
    hide ParseTarHeader;
    var t := s[n..];
    if start + BLOCK_BYTES + e.bytes <= end <= |t| {
      assert t[start..start + BLOCK_BYTES] == s[start + n..start + n + BLOCK_BYTES];
      assert t[start + BLOCK_BYTES..start + BLOCK_BYTES + e.bytes]
          == s[start + n + BLOCK_BYTES..start + n + BLOCK_BYTES + e.bytes];
      assert forall k | start + BLOCK_BYTES + e.bytes <= k < end :: t[k] == s[k + n];
      assert forall k | start + n + BLOCK_BYTES + e.bytes <= k < end + n :: s[k] == t[k - n];
    }
  }

  lemma EndsLater(s: seq<Byte>, offset: nat, n: nat)
    requires n <= |s|
    ensures EndsAt(s[n..], offset) <==> EndsAt(s, offset + n)
  {
    var t := s[n..];
    assert |s| == offset + n + 2 * BLOCK_BYTES ==> forall k | offset + n <= k < |s| :: s[k] == t[k - n];
    assert |t| == offset + 2 * BLOCK_BYTES ==> forall k | offset <= k < |t| :: t[k] == s[k + n];
  }

  lemma StandFront(s: seq<Byte>, entries: seq<Entry>, sha: Sha, offsets: seq<nat>, n: nat)
    requires entries != [] && n <= |s| && StandsAt(s, entries[0], sha, 0, n)
    requires AllStand(s[n..], entries[1..], sha, offsets) && offsets[0] == 0
    ensures AllStand(s, entries, sha, [0] + Later(offsets, n))
  {
    hide StandsAt;
    var all := [0] + Later(offsets, n);
    forall i | 0 <= i < |entries| ensures StandsAt(s, entries[i], sha, all[i], all[i + 1]) {
      if i > 0 {
        assert StandsAt(s[n..], entries[1..][i - 1], sha, offsets[i - 1], offsets[i - 1 + 1]);
        StandsLater(s, entries[i], sha, offsets[i - 1], offsets[i], n);
      }
    }
  }

  lemma LayoutFront(s: seq<Byte>, entries: seq<Entry>, sha: Sha, offsets: seq<nat>)
    requires entries != [] && EntryAccepted(s, entries[0], sha) && EntrySize(entries[0]) <= |s|
    requires IsLayout(s[EntrySize(entries[0])..], entries[1..], sha, offsets)
    ensures IsLayout(s, entries, sha, [0] + Later(offsets, EntrySize(entries[0])))
  {
    var n := EntrySize(entries[0]);
    PaddingFills(entries[0].bytes);
    StandsFirst(s, entries[0], sha);
    assert n % BLOCK_BYTES == 0;
    hide EntryAccepted, StandsAt, AllStand, EndsAt, IsBlockEnd, EntrySize;
    StandFront(s, entries, sha, offsets, n);
    OffsetsFront(entries, offsets, n);
    EndsLater(s, offsets[|entries| - 1], n);
  }

  lemma OffsetsFront(entries: seq<Entry>, offsets: seq<nat>, n: nat)
    requires entries != [] && AreOffsets(offsets, entries[1..])
    requires n % BLOCK_BYTES == 0 && IsBlockEnd(n - BLOCK_BYTES, entries[0].bytes)
    ensures AreOffsets([0] + Later(offsets, n), entries)
  {
    hide IsBlockEnd;
    var all := [0] + Later(offsets, n);
    forall i | 0 <= i < |entries|
      ensures all[i] % BLOCK_BYTES == 0 && IsBlockEnd(all[i + 1] - all[i] - BLOCK_BYTES, entries[i].bytes)
    {
      if i > 0 {
        assert entries[1..][i - 1] == entries[i];
        assert all[i] == offsets[i - 1] + n && all[i + 1] == offsets[i - 1 + 1] + n;
        BlocksAdd(offsets[i - 1], n);
      }
    }
  }

  lemma BlocksAdd(a: nat, b: nat)
    requires a % BLOCK_BYTES == 0 && b % BLOCK_BYTES == 0
    ensures (a + b) % BLOCK_BYTES == 0
  {
  }

  /** The offsets of the entries after the first, counted from where it ends. */
  lemma LaterOffsets(entries: seq<Entry>, offsets: seq<nat>) returns (rest: seq<nat>)
    requires entries != [] && AreOffsets(offsets, entries)
    ensures |rest| == |entries| && offsets == [0] + Later(rest, offsets[1])
    ensures AreOffsets(rest, entries[1..])
  {
    forall i | 1 <= i < |offsets| ensures offsets[i] >= offsets[1] {
      OffsetsRise(entries, offsets, i);
    }
    rest := seq(|entries|, i requires 0 <= i < |entries| => offsets[i + 1] - offsets[1]);
    assert IsBlockEnd(offsets[0 + 1] - offsets[0] - BLOCK_BYTES, entries[0].bytes);
    OffsetsTail(entries, offsets, rest, offsets[1]);
  }

  lemma StandTail(s: seq<Byte>, entries: seq<Entry>, sha: Sha, offsets: seq<nat>, n: nat)
    requires entries != [] && n <= |s| && |offsets| == |entries|
    requires AllStand(s, entries, sha, [0] + Later(offsets, n))
    ensures AllStand(s[n..], entries[1..], sha, offsets)
  {
    hide StandsAt;
    var all := [0] + Later(offsets, n);
    forall i | 0 <= i < |entries[1..]| ensures StandsAt(s[n..], entries[1..][i], sha, offsets[i], offsets[i + 1]) {
      assert StandsAt(s, entries[i + 1], sha, all[i + 1], all[i + 1 + 1]);
      StandsLater(s, entries[i + 1], sha, offsets[i], offsets[i + 1], n);
    }
  }

  lemma FirstStands(s: seq<Byte>, entries: seq<Entry>, sha: Sha, offsets: seq<nat>)
    requires entries != [] && AreOffsets(offsets, entries) && AllStand(s, entries, sha, offsets)
    ensures offsets[1] == EntrySize(entries[0]) <= |s| && EntryAccepted(s, entries[0], sha)
  {
    assert StandsAt(s, entries[0], sha, offsets[0], offsets[0 + 1]);
    assert IsBlockEnd(offsets[0 + 1] - offsets[0] - BLOCK_BYTES, entries[0].bytes);
    PaddingFills(entries[0].bytes);
    StandsFirst(s, entries[0], sha);
  }

  lemma LayoutTail(s: seq<Byte>, entries: seq<Entry>, sha: Sha, offsets: seq<nat>) returns (rest: seq<nat>)
    requires entries != [] && IsLayout(s, entries, sha, offsets)
    ensures EntrySize(entries[0]) <= |s| && EntryAccepted(s, entries[0], sha)
    ensures IsLayout(s[EntrySize(entries[0])..], entries[1..], sha, rest)
  {
    hide EntryAccepted, StandsAt, AllStand, EndsAt, AreOffsets, EntrySize;
    FirstStands(s, entries, sha, offsets);
    rest := LaterOffsets(entries, offsets);
    StandTail(s, entries, sha, rest, offsets[1]);
    EndsLater(s, rest[|entries| - 1], offsets[1]);
  }

  lemma {:induction false} OffsetsRise(entries: seq<Entry>, offsets: seq<nat>, i: nat)
    requires AreOffsets(offsets, entries) && 1 <= i < |offsets|
    ensures offsets[1] <= offsets[i]
    decreases i
  {
    if i == 1 {
    } else {
      OffsetsRise(entries, offsets, i - 1);
      assert IsBlockEnd(offsets[i - 1 + 1] - offsets[i - 1] - BLOCK_BYTES, entries[i - 1].bytes);
    }
  }

  lemma OffsetsTail(entries: seq<Entry>, offsets: seq<nat>, rest: seq<nat>, n: nat)
    requires entries != [] && AreOffsets(offsets, entries) && n == offsets[1] && n % BLOCK_BYTES == 0
    requires |rest| == |entries| && forall i | 0 <= i < |rest| :: rest[i] + n == offsets[i + 1]
    ensures AreOffsets(rest, entries[1..])
  {
    forall i | 0 <= i < |entries[1..]|
      ensures rest[i] % BLOCK_BYTES == 0 && IsBlockEnd(rest[i + 1] - rest[i] - BLOCK_BYTES, entries[1..][i].bytes)
    {
      assert offsets[i + 1] % BLOCK_BYTES == 0;
      assert IsBlockEnd(offsets[i + 1 + 1] - offsets[i + 1] - BLOCK_BYTES, entries[i + 1].bytes);
    }
  }

  lemma LayoutNone(s: seq<Byte>, sha: Sha)
    requires |s| == 2 * BLOCK_BYTES && AllZero(s)
    ensures IsLayout(s, [], sha, [0])
  {
  }

  /** The passes accept exactly the streams that look like that. */
  lemma {:induction false} AcceptedLayout(s: seq<Byte>, entries: seq<Entry>, sha: Sha) returns (offsets: seq<nat>)
    requires Accepts(s, entries, sha)
    ensures IsLayout(s, entries, sha, offsets)
    decreases |entries|
  {
    if entries == [] {
      LayoutNone(s, sha);
      offsets := [0];
    } else {
      StandsFirst(s, entries[0], sha);
      assert EntrySize(entries[0]) <= |s|;
      hide EntryAccepted, IsLayout, StandsAt;
      offsets := AcceptedLayout(s[EntrySize(entries[0])..], entries[1..], sha);
      LayoutFront(s, entries, sha, offsets);
      offsets := [0] + Later(offsets, EntrySize(entries[0]));
    }
  }

  lemma {:induction false} LayoutAccepted(s: seq<Byte>, entries: seq<Entry>, sha: Sha, offsets: seq<nat>)
    requires IsLayout(s, entries, sha, offsets)
    ensures Accepts(s, entries, sha)
    decreases |entries|
  {
    if entries == [] {
    } else {
      var rest := LayoutTail(s, entries, sha, offsets);
      hide EntryAccepted, IsLayout;
      LayoutAccepted(s[EntrySize(entries[0])..], entries[1..], sha, rest);
    }
  }

  /** A stream of the passes is a whole number of blocks. */
  lemma AcceptedIsBlocks(s: seq<Byte>, entries: seq<Entry>, sha: Sha)
    requires Accepts(s, entries, sha)
    ensures |s| % BLOCK_BYTES == 0
  {
    hide Accepts, AllStand, EndsAt, AreOffsets;
    var offsets := AcceptedLayout(s, entries, sha);
    LastOffset(entries, offsets);
    EndIsBlocks(s, offsets[|entries|]);
  }

  lemma LastOffset(entries: seq<Entry>, offsets: seq<nat>)
    requires AreOffsets(offsets, entries)
    ensures |offsets| == |entries| + 1 && offsets[|entries|] % BLOCK_BYTES == 0
  {
    if entries != [] {
      var i := |entries| - 1;
      assert offsets[i] % BLOCK_BYTES == 0 && IsBlockEnd(offsets[i + 1] - offsets[i] - BLOCK_BYTES, entries[i].bytes);
    }
  }

  /** What the writer yields, whatever its keys: a header at every offset, the content, zeros. */
  ghost predicate IsWrittenLayout(s: seq<Byte>, sources: seq<Source>, offsets: seq<nat>) {
    AreOffsets(offsets, Entries(sources)) && AllWritten(s, sources, offsets) && EndsAt(s, offsets[|sources|])
  }

  ghost predicate AllWritten(s: seq<Byte>, sources: seq<Source>, offsets: seq<nat>) {
    && |offsets| == |sources| + 1
    && forall i | 0 <= i < |sources| :: WrittenAt(s, sources[i], offsets[i], offsets[i + 1])
  }

  ghost predicate WrittenAt(s: seq<Byte>, src: Source, start: nat, end: nat) {
    && start + BLOCK_BYTES + src.entry.bytes <= end <= |s|
    && IsEntryHeader(s[start..start + BLOCK_BYTES], src.entry.key, src.entry.bytes)
    && s[start + BLOCK_BYTES..start + BLOCK_BYTES + src.entry.bytes] == Concat(src.chunks)
    && forall k | start + BLOCK_BYTES + src.entry.bytes <= k < end :: s[k] == 0
  }

  lemma WrittenFirst(s: seq<Byte>, src: Source)
    requires EntrySize(src.entry) <= |s| && WrittenEntry(s[..EntrySize(src.entry)], src)
    ensures WrittenAt(s, src, 0, EntrySize(src.entry))
  {
    hide IsEntryHeader;
    var e, t := src.entry, s[..EntrySize(src.entry)];
    assert s[0..BLOCK_BYTES] == t[..BLOCK_BYTES];
    assert t[BLOCK_BYTES..BLOCK_BYTES + e.bytes] == s[BLOCK_BYTES..BLOCK_BYTES + e.bytes];
    var zeros := t[BLOCK_BYTES + e.bytes..];
    assert forall k | BLOCK_BYTES + e.bytes <= k < EntrySize(e) :: s[k] == zeros[k - BLOCK_BYTES - e.bytes];
  }

  lemma WrittenLater(s: seq<Byte>, src: Source, start: nat, end: nat, n: nat)
    requires n <= |s| && WrittenAt(s[n..], src, start, end)
    ensures WrittenAt(s, src, start + n, end + n)
  {
    hide IsEntryHeader;
    var t, e := s[n..], src.entry;
    assert t[start..start + BLOCK_BYTES] == s[start + n..start + n + BLOCK_BYTES];
    assert t[start + BLOCK_BYTES..start + BLOCK_BYTES + e.bytes]
        == s[start + n + BLOCK_BYTES..start + n + BLOCK_BYTES + e.bytes];
    assert forall k | start + n + BLOCK_BYTES + e.bytes <= k < end + n :: s[k] == t[k - n];
  }

  lemma AllWrittenFront(s: seq<Byte>, sources: seq<Source>, offsets: seq<nat>, n: nat)
    requires sources != [] && n <= |s| && WrittenAt(s, sources[0], 0, n)
    requires AllWritten(s[n..], sources[1..], offsets) && offsets[0] == 0
    ensures AllWritten(s, sources, [0] + Later(offsets, n))
  {
    hide WrittenAt;
    var all := [0] + Later(offsets, n);
    forall i | 0 <= i < |sources| ensures WrittenAt(s, sources[i], all[i], all[i + 1]) {
      if i > 0 {
        assert WrittenAt(s[n..], sources[1..][i - 1], offsets[i - 1], offsets[i - 1 + 1]);
        WrittenLater(s, sources[i], offsets[i - 1], offsets[i], n);
      }
    }
  }

  lemma EmptyArchive(s: seq<Byte>)
    requires IsArchive(s, [])
    ensures IsWrittenLayout(s, [], [0])
  {
    assert s[|s| - 2 * BLOCK_BYTES..] == s;
  }

  /** An archive is laid out in whole blocks, a header at the start of each entry. */
  lemma {:induction false} WrittenLayout(s: seq<Byte>, sources: seq<Source>) returns (offsets: seq<nat>)
    requires IsArchive(s, sources)
    ensures IsWrittenLayout(s, sources, offsets) && |s| % BLOCK_BYTES == 0
    decreases |sources|
  {
    hide IsArchive, WrittenAt, WrittenEntry, AllWritten, EndsAt, AreOffsets, EntrySize, IsBlockEnd;
    if sources == [] {
      EmptyArchive(s);
      offsets := [0];
    } else {
      var n := EntrySize(sources[0].entry);
      ArchiveTail(s, sources);
      WrittenFirst(s, sources[0]);
      SizeIsBlocks(sources[0].entry);
      var rest := WrittenLayout(s[n..], sources[1..]);
      offsets := [0] + Later(rest, n);
      StartsAtZero(rest, Entries(sources[1..]));
      AllWrittenFront(s, sources, rest, n);
      assert Entries(sources)[1..] == Entries(sources[1..]);
      OffsetsFront(Entries(sources), rest, n);
      EndsLater(s, rest[|sources| - 1], n);
    }
    LastOffset(Entries(sources), offsets);
    EndIsBlocks(s, offsets[|sources|]);
  }

  lemma SizeIsBlocks(e: Entry)
    ensures EntrySize(e) % BLOCK_BYTES == 0 && IsBlockEnd(EntrySize(e) - BLOCK_BYTES, e.bytes)
  {
    hide Padding;
    PaddingFills(e.bytes);
  }

  lemma StartsAtZero(offsets: seq<nat>, entries: seq<Entry>)
    requires AreOffsets(offsets, entries)
    ensures |offsets| == |entries| + 1 && offsets[0] == 0
  {
  }

  lemma EndIsBlocks(s: seq<Byte>, offset: nat)
    requires EndsAt(s, offset) && offset % BLOCK_BYTES == 0
    ensures |s| % BLOCK_BYTES == 0
  {
  }
}
