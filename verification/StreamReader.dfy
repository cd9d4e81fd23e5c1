/** The buffering reader the restore side pulls exact byte counts from, over a stream that
    arrives in arbitrary chunks. */
module StreamReader {
  import opened Wrappers
  import opened Tar

  datatype ArchiveError =
    | BadHeader(cause: Tar.Error)
    | EndedEarly | TrailingData
    | OmittedEntry | EntryMismatch | DigestMismatch | InvalidPadding | InvalidTerminator
    | PathOccupied | ChangedDuringCapture
    | UnknownDirectory | UnknownKey | MisroutedKey | SentinelInvalid
    | InvalidManifest | InvalidEntry | InvalidAggregate | InvalidIgnored
    | DestinationNotEmpty | EvidenceMismatch

  /** The bytes of a chunked stream. */
  function Concat(chunks: seq<seq<Byte>>): seq<Byte> {
    if chunks == [] then [] else chunks[0] + Concat(chunks[1..])
  }

  lemma {:induction false} ConcatAppend(chunks: seq<seq<Byte>>, last: seq<Byte>)
    ensures Concat(chunks + [last]) == Concat(chunks) + last
  {
    if chunks == [] {
      assert Concat([last][1..]) == [];
      assert [last] == chunks + [last];
    } else {
      ConcatAppend(chunks[1..], last);
      assert (chunks + [last])[1..] == chunks[1..] + [last];
    }
  }

  predicate NonEmptyChunks(chunks: seq<seq<Byte>>) {
    forall k | 0 <= k < |chunks| :: chunks[k] != []
  }

  class ExactStreamReader {
    /** The chunks the underlying iterator has still to yield. */
    var stream: seq<seq<Byte>>
    var buffer: seq<Byte>
    var ended: bool

    ghost predicate Valid()
      reads this
    {
      ended ==> stream == []
    }

    /** Every byte not yet handed out. */
    ghost function Remaining(): seq<Byte>
      reads this
    {
      buffer + Concat(stream)
    }

    constructor (chunks: seq<seq<Byte>>)
      ensures Valid() && stream == chunks && Remaining() == Concat(chunks)
    {
      stream, buffer, ended := chunks, [], false;
    }

    method ReadExact(bytes: nat) returns (r: Result<seq<Byte>, ArchiveError>)
      requires Valid()
      modifies this
      ensures Valid()
      ensures bytes <= |old(Remaining())| ==>
                && r == Ok(old(Remaining())[..bytes])
                && Remaining() == old(Remaining())[bytes..]
      ensures bytes > |old(Remaining())| ==> r == Err(EndedEarly) && Remaining() == old(Remaining())
      ensures NonEmptyChunks(old(stream)) ==> NonEmptyChunks(stream)
    {
      while |buffer| < bytes && !ended
        invariant Valid() && Remaining() == old(Remaining())
        invariant NonEmptyChunks(old(stream)) ==> NonEmptyChunks(stream)
        decreases |stream|, !ended
      {
        if stream == [] {
          ended := true;
        } else {
          assert buffer + (stream[0] + Concat(stream[1..])) == buffer + stream[0] + Concat(stream[1..]);
          buffer, stream := buffer + stream[0], stream[1..];
        }
      }
      if |buffer| < bytes {
        return Err(EndedEarly);
      }
      var result := buffer[..bytes];
      assert result == old(Remaining())[..bytes];
      buffer := buffer[bytes..];
      return Ok(result);
    }

    /** Succeeds exactly when nothing is buffered and the stream is over. A stream that never
        yields an empty chunk is over exactly when no byte is left. */
    method AssertEnd() returns (r: Result<(), ArchiveError>)
      requires Valid()
      modifies this
      ensures r == if old(buffer) == [] && old(stream) == [] then Ok(()) else Err(TrailingData)
      ensures NonEmptyChunks(old(stream)) ==> (r.Ok? <==> old(Remaining()) == [])
    {
      if |buffer| != 0 {
        return Err(TrailingData);
      }
      if stream != [] {
        assert NonEmptyChunks(stream) ==> stream[0] != [] && Concat(stream) != [];
        stream := stream[1..];
        return Err(TrailingData);
      }
      return Ok(());
    }
  }

  /** A stream of one empty chunk has no byte left, and is still refused as trailing data. */
  method EmptyChunkRefused() returns (r: Result<(), ArchiveError>)
    ensures Concat([[]]) == [] && r == Err(TrailingData)
  {
    var reader := new ExactStreamReader([[]]);
    r := reader.AssertEnd();
  }
}
