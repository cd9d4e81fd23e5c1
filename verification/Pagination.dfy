/** The paginator: splitting long paragraphs and filling pages greedily. */
module Pagination {
  import opened Publication

  // ---------- splitting a paragraph ----------

  ghost function ChunkCharacters(chunks: seq<Fragments>): seq<Styled> {
    if chunks == [] then []
    else ChunkCharacters(chunks[..|chunks| - 1]) + Characters(chunks[|chunks| - 1])
  }

  lemma ChunkAppend(chunks: seq<Fragments>, chunk: Fragments)
    ensures ChunkCharacters(chunks + [chunk]) == ChunkCharacters(chunks) + Characters(chunk)
  {
    assert (chunks + [chunk])[..|chunks|] == chunks;
  }

  lemma StyledSlice(f: Fragment, a: nat, b: nat)
    requires a <= b <= |f.text|
    ensures StyledText(Fragment(f.text[a..b], f.marks, Link(f.href))) == StyledText(f)[a..b]
  {
    var g := Fragment(f.text[a..b], f.marks, Link(f.href));
    forall k | 0 <= k < b - a ensures StyledText(g)[k] == StyledText(f)[a..b][k] {
      assert g.text[k] == f.text[a + k];
    }
  }

  ghost predicate NoEmptyFragment(fragments: Fragments) {
    NoEmptyLink(fragments) && forall f | f in fragments :: f.text != ""
  }

  /** The chunks are the same styled characters in order, all full but perhaps the last. */
  ghost predicate IsSplit(fragments: Fragments, maximum: nat, chunks: seq<Fragments>) {
    && ChunkCharacters(chunks) == Characters(fragments)
    && (forall i | 0 <= i < |chunks| :: 1 <= FragmentLength(chunks[i]) <= maximum && NoEmptyFragment(chunks[i]))
    && (forall i | 0 <= i < |chunks| - 1 :: FragmentLength(chunks[i]) == maximum)
  }

  /** While cutting: every finished chunk is full, and the open one is not over-full. */
  ghost predicate Cutting(chunks: seq<Fragments>, current: Fragments, currentLength: int, maximum: nat) {
    && (forall i | 0 <= i < |chunks| :: FragmentLength(chunks[i]) == maximum && NoEmptyFragment(chunks[i]))
    && currentLength == FragmentLength(current) <= maximum && NoEmptyFragment(current)
  }

  lemma FragmentsCount(current: Fragments)
    requires NoEmptyFragment(current)
    ensures |current| > 0 <==> FragmentLength(current) > 0
  {
    if |current| > 0 {
      assert current[|current| - 1] in current;
    }
  }

  lemma Extend(a: seq<Styled>, b: seq<Styled>, x: seq<Styled>, styled: seq<Styled>, offset: nat, end: nat)
    requires offset <= end <= |styled| && a + b == x + styled[..offset]
    ensures a + (b + styled[offset..end]) == x + styled[..end]
  {
    assert styled[..end] == styled[..offset] + styled[offset..end];
    assert a + (b + styled[offset..end]) == (a + b) + styled[offset..end];
  }

  /** The open chunk is finished and a new one begun. */
  lemma Flush(chunks: seq<Fragments>, current: Fragments, maximum: nat)
    requires Cutting(chunks, current, maximum, maximum)
    ensures Cutting(chunks + [current], [], 0, maximum)
    ensures ChunkCharacters(chunks + [current]) + Characters([]) == ChunkCharacters(chunks) + Characters(current)
  {
    ChunkAppend(chunks, current);
    assert Characters([]) == [] && FragmentLength([]) == 0;
  }

  /** The characters from `offset` to `end` join the open chunk. */
  lemma AddPiece(f: Fragment, chunks: seq<Fragments>, current: Fragments, length: nat, maximum: nat,
                 before: seq<Styled>, offset: nat, end: nat)
    requires Cutting(chunks, current, length, maximum) && offset < end <= |f.text| && length + end - offset <= maximum
    requires ChunkCharacters(chunks) + Characters(current) == before + StyledText(f)[..offset]
    ensures var piece := Fragment(f.text[offset..end], f.marks, Link(f.href));
      && Cutting(chunks, current + [piece], length + end - offset, maximum)
      && ChunkCharacters(chunks) + Characters(current + [piece]) == before + StyledText(f)[..end]
  {
    var piece := Fragment(f.text[offset..end], f.marks, Link(f.href));
    StyledSlice(f, offset, end);
    CharactersAppend(current, piece);
    hide ChunkCharacters, Characters, StyledText, Link, FragmentLength;
    Extend(ChunkCharacters(chunks), Characters(current), before, StyledText(f), offset, end);
  }

  lemma CuttingBound(chunks: seq<Fragments>, current: Fragments, length: int, maximum: nat)
    requires Cutting(chunks, current, length, maximum)
    ensures 0 <= length <= maximum
  {
  }

  /** The inner loop: one fragment cut over the open chunk and as many new ones as it needs. */
  method CutFragment(fragment: Fragment, chunks0: seq<Fragments>, current0: Fragments, length0: nat,
                     maximumCharacters: nat)
      returns (chunks: seq<Fragments>, current: Fragments, currentLength: nat)
    requires maximumCharacters >= 1 && Cutting(chunks0, current0, length0, maximumCharacters)
    ensures Cutting(chunks, current, currentLength, maximumCharacters)
    ensures ChunkCharacters(chunks) + Characters(current)
         == ChunkCharacters(chunks0) + Characters(current0) + StyledText(fragment)
  {
    hide Cutting, ChunkCharacters, Characters, FragmentLength, StyledText, Link;
    CuttingBound(chunks0, current0, length0, maximumCharacters);
    ghost var styled, before := StyledText(fragment), ChunkCharacters(chunks0) + Characters(current0);
    assert before + styled[..0] == before;
    chunks, current, currentLength := chunks0, current0, length0;
    var offset := 0;
    while offset < |fragment.text|
      invariant 0 <= offset <= |fragment.text|
      invariant Cutting(chunks, current, currentLength, maximumCharacters) && currentLength <= maximumCharacters
      invariant ChunkCharacters(chunks) + Characters(current) == before + styled[..offset]
      decreases |fragment.text| - offset, currentLength
    {
      var available := maximumCharacters - currentLength;
      if available <= 0 {
        Flush(chunks, current, maximumCharacters);
        chunks, current, currentLength := chunks + [current], [], 0;
      } else {
        var end := if offset + available < |fragment.text| then offset + available else |fragment.text|;
        var piece := Fragment(fragment.text[offset..end], fragment.marks, Link(fragment.href));
        AddPiece(fragment, chunks, current, currentLength, maximumCharacters, before, offset, end);
        current := current + [piece];
        currentLength := currentLength + |piece.text|;
        offset := offset + |piece.text|;
        assert offset == end;
        if currentLength >= maximumCharacters {
          Flush(chunks, current, maximumCharacters);
          chunks, current, currentLength := chunks + [current], [], 0;
        }
      }
    }
    assert styled[..|fragment.text|] == styled;
  }

  method SplitFragments(fragments: Fragments, maximumCharacters: nat) returns (chunks: seq<Fragments>)
    requires maximumCharacters >= 1
    ensures IsSplit(fragments, maximumCharacters, chunks)
  {
    chunks := [];
    var current: Fragments := [];
    var currentLength := 0;
    for n := 0 to |fragments|
      invariant Cutting(chunks, current, currentLength, maximumCharacters)
      invariant ChunkCharacters(chunks) + Characters(current) == Characters(fragments[..n])
    {
      hide Cutting, ChunkCharacters, Characters, StyledText;
      chunks, current, currentLength := CutFragment(fragments[n], chunks, current, currentLength, maximumCharacters);
      assert fragments[..n + 1] == fragments[..n] + [fragments[n]];
      CharactersAppend(fragments[..n], fragments[n]);
    }
    assert fragments[..|fragments|] == fragments;
    hide Cutting, ChunkCharacters, Characters, IsSplit;
    if |current| > 0 {
      LastChunk(fragments, chunks, current, currentLength, maximumCharacters);
      chunks := chunks + [current];
    } else {
      NoLastChunk(fragments, chunks, currentLength, maximumCharacters);
    }
  }

  lemma NoLastChunk(fragments: Fragments, chunks: seq<Fragments>, length: nat, maximum: nat)
    requires maximum >= 1 && Cutting(chunks, [], length, maximum)
    requires ChunkCharacters(chunks) + Characters([]) == Characters(fragments)
    ensures IsSplit(fragments, maximum, chunks)
  {
    assert Characters([]) == [];
    hide Characters, FragmentLength, NoEmptyFragment;
    assert ChunkCharacters(chunks) + [] == ChunkCharacters(chunks);
  }

  lemma LastChunk(fragments: Fragments, chunks: seq<Fragments>, current: Fragments, length: nat, maximum: nat)
    requires maximum >= 1 && Cutting(chunks, current, length, maximum) && current != []
    requires ChunkCharacters(chunks) + Characters(current) == Characters(fragments)
    ensures IsSplit(fragments, maximum, chunks + [current])
  {
    hide ChunkCharacters, Characters, FragmentLength, NoEmptyFragment;
    FragmentsCount(current);
    ChunkAppend(chunks, current);
    var all := chunks + [current];
    assert forall i | 0 <= i < |chunks| :: all[i] == chunks[i];
  }

  lemma ChunksUpTo(chunks: seq<Fragments>, j: nat)
    requires j < |chunks|
    ensures ChunkCharacters(chunks[..j + 1]) == ChunkCharacters(chunks[..j]) + Characters(chunks[j])
  {
    assert chunks[..j + 1] == chunks[..j] + [chunks[j]];
    ChunkAppend(chunks[..j], chunks[j]);
  }

  lemma {:induction false} ChunksPrefix(chunks: seq<Fragments>, j: nat)
    requires j <= |chunks|
    ensures ChunkCharacters(chunks[..j]) <= ChunkCharacters(chunks)
    decreases |chunks| - j
  {
    if j < |chunks| {
      ChunksUpTo(chunks, j);
      ChunksPrefix(chunks, j + 1);
    } else {
      assert chunks[..j] == chunks;
    }
  }

  lemma PrefixSlice(a: seq<Styled>, b: seq<Styled>, all: seq<Styled>)
    requires a + b <= all
    ensures b == all[|a|..|a| + |b|]
  {
    assert b == (a + b)[|a|..];
  }

  /** Chunk `j` holds the characters after those of the chunks before it, and is full unless it is the last. */
  lemma ChunkRange(fragments: Fragments, maximum: nat, chunks: seq<Fragments>, j: nat)
    requires IsSplit(fragments, maximum, chunks) && j < |chunks|
    ensures var start := |ChunkCharacters(chunks[..j])|;
      var end := start + FragmentLength(chunks[j]);
      && 0 <= start < end <= FragmentLength(fragments) && end - start <= maximum
      && (end < FragmentLength(fragments) ==> end - start == maximum)
      && |ChunkCharacters(chunks[..j + 1])| == end
      && Characters(chunks[j]) == Characters(fragments)[start..end] && NoEmptyLink(chunks[j])
  {
    hide ChunkCharacters, Characters, FragmentLength, NoEmptyFragment;
    ChunkIsClean(chunks[j]);
    ChunksUpTo(chunks, j);
    ChunksPrefix(chunks, j + 1);
    PrefixSlice(ChunkCharacters(chunks[..j]), Characters(chunks[j]), Characters(fragments));
    if j + 1 == |chunks| {
      assert chunks[..j + 1] == chunks;
    }
  }

  lemma ChunkIsClean(chunk: Fragments)
    ensures NoEmptyFragment(chunk) ==> NoEmptyLink(chunk)
  {
  }

  lemma NoChunks(chunks: seq<Fragments>)
    ensures ChunkCharacters(chunks[..0]) == []
  {
  }

  lemma AllChunks(fragments: Fragments, maximum: nat, chunks: seq<Fragments>)
    requires IsSplit(fragments, maximum, chunks)
    ensures |ChunkCharacters(chunks[..|chunks|])| == FragmentLength(fragments)
  {
    assert chunks[..|chunks|] == chunks;
  }

  // ---------- links ----------

  ghost function RawChunks(chunks: seq<Fragments>): seq<Styled> {
    if chunks == [] then []
    else RawChunks(chunks[..|chunks| - 1]) + RawCharacters(chunks[|chunks| - 1])
  }

  lemma {:induction false} ChunksAreRaw(chunks: seq<Fragments>)
    requires forall i | 0 <= i < |chunks| :: NoEmptyLink(chunks[i])
    ensures ChunkCharacters(chunks) == RawChunks(chunks)
  {
    if chunks == [] {
    } else {
      ChunksAreRaw(chunks[..|chunks| - 1]);
      StyledIsRaw(chunks[|chunks| - 1]);
    }
  }

  /** Character by character the chunks of a split carry the character, the marks and the link of the
      paragraph, where an empty link is no link. */
  lemma SplitKeepsLinks(fragments: Fragments, maximum: nat, chunks: seq<Fragments>)
    requires IsSplit(fragments, maximum, chunks)
    ensures AllRender(RawChunks(chunks), RawCharacters(fragments))
  {
    ChunksAreRaw(chunks);
    StyledShowsRaw(fragments);
  }
}
