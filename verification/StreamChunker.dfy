/** Cutting a byte stream into chunks as the reads come in. */
module StreamChunker {
  import opened Prelude

  type byte = bv8
  type Bytes = seq<byte>

  function Concat(parts: seq<Bytes>): Bytes {
    if parts == [] then [] else Concat(parts[..|parts| - 1]) + parts[|parts| - 1]
  }

  lemma ConcatSnoc(parts: seq<Bytes>, part: Bytes)
    ensures Concat(parts + [part]) == Concat(parts) + part
  {
    assert (parts + [part])[..|parts|] == parts;
  }

  /** The chunks split off so far and what is left in the buffer. */
  datatype Pumped = Pumped(chunks: seq<Bytes>, rest: Bytes)

  /** After a read one chunk is split off, if there is enough for one. */
  function Take(p: Pumped, read: Bytes, chunkSize: nat): Pumped {
    var grown := p.rest + read;
    if |grown| >= chunkSize then Pumped(p.chunks + [grown[..chunkSize]], grown[chunkSize..])
    else Pumped(p.chunks, grown)
  }

  function Pump(buffer: Bytes, pieces: seq<Bytes>, chunkSize: nat): Pumped {
    if pieces == [] then Pumped([], buffer)
    else Take(Pump(buffer, pieces[..|pieces| - 1], chunkSize), pieces[|pieces| - 1], chunkSize)
  }

  /** At the end of the stream whatever is left becomes the last chunk. */
  function Finish(p: Pumped): seq<Bytes> {
    p.chunks + if p.rest == [] then [] else [p.rest]
  }

  /** No byte is lost, repeated or moved, whatever the chunk size and the reads. */
  lemma {:induction false} PumpConserves(buffer: Bytes, pieces: seq<Bytes>, chunkSize: nat)
    ensures var p := Pump(buffer, pieces, chunkSize);
            Concat(p.chunks) + p.rest == buffer + Concat(pieces)
  {
    if pieces != [] {
      var front, last := pieces[..|pieces| - 1], pieces[|pieces| - 1];
      PumpConserves(buffer, front, chunkSize);
      var p := Pump(buffer, front, chunkSize);
      var grown := p.rest + last;
      assert buffer + Concat(pieces) == (buffer + Concat(front)) + last == Concat(p.chunks) + grown;
      if |grown| >= chunkSize {
        ConcatSnoc(p.chunks, grown[..chunkSize]);
        assert grown == grown[..chunkSize] + grown[chunkSize..];
      }
    }
  }

  lemma ChunksAreTheStream(buffer: Bytes, pieces: seq<Bytes>, chunkSize: nat)
    ensures Concat(Finish(Pump(buffer, pieces, chunkSize))) == buffer + Concat(pieces)
  {
    PumpConserves(buffer, pieces, chunkSize);
    var p := Pump(buffer, pieces, chunkSize);
    if p.rest == [] {
      assert Finish(p) == p.chunks && Concat(p.chunks) + p.rest == Concat(p.chunks);
    } else {
      ConcatSnoc(p.chunks, p.rest);
    }
  }

  /** The chunking that depends on the data alone: full chunks, and one that is not longer. */
  function Canonical(data: Bytes, chunkSize: nat): seq<Bytes>
    requires chunkSize > 0
  {
    if data == [] then []
    else if |data| <= chunkSize then [data]
    else [data[..chunkSize]] + Canonical(data[chunkSize..], chunkSize)
  }

  predicate AllFull(chunks: seq<Bytes>, chunkSize: nat) {
    forall i :: 0 <= i < |chunks| ==> |chunks[i]| == chunkSize
  }

  /** Full chunks with a last one behind them are canonical exactly when the last one is not too long. */
  lemma {:induction false} FullChunksAreCanonical(chunks: seq<Bytes>, rest: Bytes, chunkSize: nat)
    requires chunkSize > 0 && AllFull(chunks, chunkSize)
    ensures Canonical(Concat(chunks) + rest, chunkSize) == Finish(Pumped(chunks, rest)) <==> |rest| <= chunkSize
    decreases |chunks|
  {
    var data := Concat(chunks) + rest;
    if chunks == [] {
      assert data == rest;
      if |rest| > chunkSize {
        assert |Canonical(rest, chunkSize)[0]| == chunkSize;
      }
    } else {
      var first, tail := chunks[0], chunks[1..];
      ConcatHead(chunks);
      assert data == first + (Concat(tail) + rest);
      FullChunksAreCanonical(tail, rest, chunkSize);
      assert data[..chunkSize] == first && data[chunkSize..] == Concat(tail) + rest;
      if data == first {
        assert tail == [] && rest == [] by {
          if tail != [] { ConcatHead(tail); }
        }
      } else {
        assert Canonical(data, chunkSize) == [first] + Canonical(Concat(tail) + rest, chunkSize);
      }
      assert Finish(Pumped(chunks, rest)) == [first] + Finish(Pumped(tail, rest));
      if Canonical(data, chunkSize) == Finish(Pumped(chunks, rest)) {
        assert Canonical(data, chunkSize)[1..] == Finish(Pumped(tail, rest));
      }
    }
  }

  lemma {:induction false} ConcatHead(parts: seq<Bytes>)
    requires parts != []
    ensures Concat(parts) == parts[0] + Concat(parts[1..])
  {
    var n := |parts| - 1;
    var last := parts[n];
    if n == 0 {
      assert Concat(parts[..0]) == [] && Concat(parts[1..]) == [];
    } else {
      var front := parts[..n];
      ConcatHead(front);
      assert front[1..] == parts[1..][..n - 1];
      assert Concat(parts[1..]) == Concat(front[1..]) + last;
      assert (parts[0] + Concat(front[1..])) + last == parts[0] + (Concat(front[1..]) + last);
    }
  }

  lemma {:induction false} PumpedAreFull(buffer: Bytes, pieces: seq<Bytes>, chunkSize: nat)
    ensures AllFull(Pump(buffer, pieces, chunkSize).chunks, chunkSize)
  {
    if pieces != [] {
      PumpedAreFull(buffer, pieces[..|pieces| - 1], chunkSize);
    }
  }

  /** The output is the canonical chunking of the stream exactly when the backlog at its end fits one chunk. */
  lemma CanonicalIffBacklogFits(buffer: Bytes, pieces: seq<Bytes>, chunkSize: nat)
    requires chunkSize > 0
    ensures Finish(Pump(buffer, pieces, chunkSize)) == Canonical(buffer + Concat(pieces), chunkSize) <==>
            Backlog(|buffer|, pieces, chunkSize) <= chunkSize
  {
    var p := Pump(buffer, pieces, chunkSize);
    PumpConserves(buffer, pieces, chunkSize);
    PumpedAreFull(buffer, pieces, chunkSize);
    FullChunksAreCanonical(p.chunks, p.rest, chunkSize);
    BacklogIsRest(buffer, pieces, chunkSize);
  }

  /** How much is waiting after the reads: every read adds its length, and takes off one chunk if there is one. */
  function Backlog(start: nat, pieces: seq<Bytes>, chunkSize: nat): nat {
    if pieces == [] then start
    else
      var grown := Backlog(start, pieces[..|pieces| - 1], chunkSize) + |pieces[|pieces| - 1]|;
      if grown >= chunkSize then grown - chunkSize else grown
  }

  lemma {:induction false} BacklogIsRest(buffer: Bytes, pieces: seq<Bytes>, chunkSize: nat)
    ensures |Pump(buffer, pieces, chunkSize).rest| == Backlog(|buffer|, pieces, chunkSize)
  {
    if pieces != [] {
      BacklogIsRest(buffer, pieces[..|pieces| - 1], chunkSize);
    }
  }

  /** Reads no longer than a chunk leave no backlog of a chunk or more. */
  lemma {:induction false} ShortReadsLeaveLittle(start: nat, pieces: seq<Bytes>, chunkSize: nat)
    requires start < chunkSize && forall i :: 0 <= i < |pieces| ==> |pieces[i]| <= chunkSize
    ensures Backlog(start, pieces, chunkSize) < chunkSize
  {
    if pieces != [] {
      ShortReadsLeaveLittle(start, pieces[..|pieces| - 1], chunkSize);
    }
  }

  /** So two ways of cutting the same stream into such reads give the same chunks. */
  lemma FragmentationIsInvisible(buffer: Bytes, pieces: seq<Bytes>, others: seq<Bytes>, chunkSize: nat)
    requires |buffer| < chunkSize && Concat(pieces) == Concat(others)
    requires forall i :: 0 <= i < |pieces| ==> |pieces[i]| <= chunkSize
    requires forall i :: 0 <= i < |others| ==> |others[i]| <= chunkSize
    ensures Finish(Pump(buffer, pieces, chunkSize)) == Finish(Pump(buffer, others, chunkSize))
  {
    ShortReadsLeaveLittle(|buffer|, pieces, chunkSize);
    ShortReadsLeaveLittle(|buffer|, others, chunkSize);
    CanonicalIffBacklogFits(buffer, pieces, chunkSize);
    CanonicalIffBacklogFits(buffer, others, chunkSize);
  }

  // --------------------------------------------------------------------- the processor

  /** What one read of the stream comes to; no bytes is the end of it. */
  datatype Read = Data(bytes: Bytes) | Failed

  datatype IoError = ReadFailed

  /** The reads before the end of the stream or the first failure. */
  function Heard(pieces: seq<Read>): seq<Bytes> {
    if pieces == [] || pieces[0].Failed? || pieces[0].bytes == [] then [] else [pieces[0].bytes] + Heard(pieces[1..])
  }

  predicate Fails(pieces: seq<Read>) {
    pieces != [] && (pieces[0].Failed? || (pieces[0].bytes != [] && Fails(pieces[1..])))
  }

  /** The first `n` reads are data. */
  ghost predicate AllData(pieces: seq<Read>, n: nat) {
    n <= |pieces| && forall i :: 0 <= i < n ==> pieces[i].Data? && pieces[i].bytes != []
  }

  /** What is heard are the reads up to the first that is a failure or the end, and it fails if that is a failure. */
  lemma {:induction false} HeardIsUpToTheEnd(pieces: seq<Read>)
    ensures var n := |Heard(pieces)|;
            && AllData(pieces, n) && (forall i :: 0 <= i < n ==> Heard(pieces)[i] == pieces[i].bytes)
            && (n < |pieces| ==> pieces[n] == Failed || pieces[n] == Data([]))
            && (Fails(pieces) <==> n < |pieces| && pieces[n] == Failed)
  {
    if pieces != [] && pieces[0].Data? && pieces[0].bytes != [] {
      var rest := pieces[1..];
      HeardIsUpToTheEnd(rest);
      assert forall i :: 0 <= i < |rest| ==> rest[i] == pieces[i + 1];
      assert Heard(pieces) == [pieces[0].bytes] + Heard(rest);
    }
  }

  class ZeroCopyStreamProcessor {
    var buffer: Bytes
    const chunkSize: nat

    constructor (chunkSize: nat)
      ensures buffer == [] && this.chunkSize == chunkSize
    {
      buffer := [];
      this.chunkSize := chunkSize;
    }

    /** A failed read gives up the chunks split off so far, but not what is still in the buffer. */
    method ProcessStream(pieces: seq<Read>) returns (r: Result<seq<Bytes>, IoError>)
      modifies this`buffer
      ensures var p := Pump(old(buffer), Heard(pieces), chunkSize);
              if Fails(pieces) then r == Err(ReadFailed) && buffer == p.rest else r == Ok(Finish(p)) && buffer == []
    {
      var chunks: seq<Bytes> := [];
      ghost var heard: seq<Bytes> := [];
      var i := 0;
      while i < |pieces|
        invariant 0 <= i <= |pieces|
        invariant heard + Heard(pieces[i..]) == Heard(pieces) && Fails(pieces[i..]) == Fails(pieces)
        invariant Pumped(chunks, buffer) == Pump(old(buffer), heard, chunkSize)
      {
        match pieces[i] {
          case Failed =>
            assert heard == Heard(pieces);
            return Err(ReadFailed);
          case Data(bytes) =>
            if bytes == [] {
              break;
            }
            buffer := buffer + bytes;
            assert (heard + [bytes])[..|heard|] == heard;
            heard := heard + [bytes];
        }
        if |buffer| >= chunkSize {
          chunks := chunks + [buffer[..chunkSize]];
          buffer := buffer[chunkSize..];
        }
        i := i + 1;
      }
      assert heard == Heard(pieces);
      assert chunks + [] == chunks;
      if buffer != [] {
        chunks := chunks + [buffer];
        buffer := [];
      }
      return Ok(chunks);
    }
  }
}
