/**
 * `AsyncThrowingDataStream(inputStream:bufferSize:)`: the bridge from a
 * Foundation input stream to an asynchronous sequence of byte chunks. Events
 * start read bursts; a burst reads until a read returns nothing or no more
 * bytes are available, yielding one zero-padded chunk per read, and then
 * finishes the sequence.
 *
 * The source's `Task`s, which run each read burst later and possibly
 * concurrently, are modelled as sequential method calls.
 */
module InputReaders {
  import opened Base
  import opened Streams

  /** The bridge's errors: the stream's own, or `unknownInputError`. */
  datatype ReadError = StreamFailed(cause: NativeError) | UnknownInputError

  /** `stream.streamError ?? Error.unknownInputError`. */
  function ErrorOf(streamError: Option<NativeError>): (e: ReadError)
    ensures e == UnknownInputError <==> streamError.None?
  {
    match streamError
    case Some(cause) => StreamFailed(cause)
    case None => UnknownInputError
  }

  /** How the sequence terminated: finished by the producer, or cancelled by the consumer. */
  datatype Termination = Ended(how: InputEnd<ReadError>) | Cancelled

  /**
   * The sequence's continuation: the chunks it has delivered and how it
   * terminated. Once terminated it drops what is yielded and ignores further
   * terminations, and it reports the first termination, once, so that
   * `onTermination` runs exactly once.
   */
  class DataContinuation {
    var chunks: seq<seq<byte>>
    var termination: Option<Termination>

    constructor ()
      ensures chunks == [] && termination == None
    {
      chunks := [];
      termination := None;
    }

    method Yield(chunk: seq<byte>)
      modifies this
      ensures termination == old(termination)
      ensures chunks == old(chunks) + (if old(termination).None? then [chunk] else [])
    {
      if termination.None? {
        chunks := chunks + [chunk];
      }
    }

    /** Finishes or cancels; `first` says whether this call terminated the sequence. */
    method Terminate(t: Termination) returns (first: bool)
      modifies this
      ensures chunks == old(chunks)
      ensures first <==> old(termination).None?
      ensures termination == if first then Some(t) else old(termination)
    {
      first := termination.None?;
      if first {
        termination := Some(t);
      }
    }
  }

  /**
   * The input stream as the bridge sees it: `read(_:maxLength:)` takes up to
   * `maxLength` of the bytes the stream holds and returns their number, or
   * returns 0 or -1 and takes nothing (and -1 may set `streamError`). How many
   * bytes one read takes is the platform's choice, so the model leaves it open.
   */
  class InputStream {
    var buffered: seq<byte>
    var streamError: Option<NativeError>
    var calls: seq<StreamCall>

    constructor (incoming: seq<byte>)
      ensures buffered == incoming && streamError == None && calls == []
    {
      buffered := incoming;
      streamError := None;
      calls := [];
    }

    predicate HasBytesAvailable()
      reads this
    {
      |buffered| > 0
    }

    method Read(maxLength: nat) returns (r: int, bytes: seq<byte>)
      modifies this
      ensures -1 <= r <= maxLength && r <= |old(buffered)|
      ensures r > 0 ==> bytes == old(buffered)[..r] && buffered == old(buffered)[r..]
      ensures r <= 0 ==> bytes == [] && buffered == old(buffered)
      ensures r >= 0 ==> streamError == old(streamError)
      ensures calls == old(calls)
    {
      r :| -1 <= r <= maxLength && r <= |buffered|;
      if r > 0 {
        bytes := buffered[..r];
        buffered := buffered[r..];
      } else {
        bytes := [];
        if r < 0 {
          var e: Option<NativeError> :| true;
          streamError := e;
        }
      }
    }

    /** `schedule(in:forMode:)`, `open()`, `remove(from:forMode:)` and `close()`. */
    method Perform(call: StreamCall)
      modifies this
      ensures calls == old(calls) + [call]
      ensures buffered == old(buffered) && streamError == old(streamError)
    {
      calls := calls + [call];
    }
  }

  /** The chunk a read yields: a zeroed buffer of `size` bytes whose first bytes the read filled. */
  function ChunkOf(bytes: seq<byte>, size: nat): (chunk: seq<byte>)
    requires |bytes| <= size
    ensures |chunk| == size && chunk[..|bytes|] == bytes
    ensures forall i :: |bytes| <= i < size ==> chunk[i] == 0
  {
    bytes + Zeros(size - |bytes|)
  }

  /** The chunks a burst whose reads took `pieces` yields, one per read, in order. */
  function ChunksOf(pieces: seq<seq<byte>>, size: nat): (chunks: seq<seq<byte>>)
    requires forall i :: 0 <= i < |pieces| ==> |pieces[i]| <= size
    decreases |pieces|
  {
    if pieces == [] then []
    else ChunksOf(pieces[..|pieces| - 1], size) + [ChunkOf(pieces[|pieces| - 1], size)]
  }

  lemma ChunksOfAppend(pieces: seq<seq<byte>>, piece: seq<byte>, size: nat)
    requires forall i :: 0 <= i < |pieces| ==> |pieces[i]| <= size
    requires |piece| <= size
    ensures ChunksOf(pieces + [piece], size) == ChunksOf(pieces, size) + [ChunkOf(piece, size)]
  {
    assert (pieces + [piece])[..|pieces|] == pieces;
  }

  /** One chunk per read: chunk `i` is the bytes read `i` took, padded with zeros to `size`. */
  lemma {:induction false} ChunksOfElements(pieces: seq<seq<byte>>, size: nat)
    requires forall i :: 0 <= i < |pieces| ==> |pieces[i]| <= size
    ensures |ChunksOf(pieces, size)| == |pieces|
    ensures forall i :: 0 <= i < |pieces| ==> ChunksOf(pieces, size)[i] == ChunkOf(pieces[i], size)
    decreases |pieces|
  {
    if pieces != [] {
      ChunksOfElements(pieces[..|pieces| - 1], size);
    }
  }

  /**
   * `pieces[i]` is what read `i` took: as many bytes as its result says, and no
   * more than `size`; and every read but the last returned more than 0 and left
   * some of the `total` bytes the stream held available. Stated read by read,
   * from the last one back; `ReadsElements` states it for all reads at once.
   */
  ghost predicate Reads(results: seq<int>, pieces: seq<seq<byte>>, size: nat, total: nat)
    decreases |results|
  {
    |results| == |pieces|
    && (results != [] ==>
          var n := |results| - 1;
          Reads(results[..n], pieces[..n], size, total)
          && |pieces[n]| == (if results[n] > 0 then results[n] else 0) <= size
          && (n > 0 ==> results[n - 1] > 0 && |Flatten(pieces[..n])| < total))
  }

  lemma {:induction false} ReadsElements(results: seq<int>, pieces: seq<seq<byte>>, size: nat, total: nat)
    requires Reads(results, pieces, size, total)
    ensures forall i :: 0 <= i < |results| - 1 ==> results[i] > 0
    ensures forall j :: 0 < j < |results| ==> |Flatten(pieces[..j])| < total
    ensures forall i :: 0 <= i < |pieces| ==> |pieces[i]| == (if results[i] > 0 then results[i] else 0) <= size
    decreases |results|
  {
    if results != [] {
      var n := |results| - 1;
      ReadsElements(results[..n], pieces[..n], size, total);
      assert forall i :: 0 <= i < n ==> results[..n][i] == results[i] && pieces[..n][i] == pieces[i];
      assert forall j :: 0 < j < n ==> pieces[..n][..j] == pieces[..j];
    }
  }

  /**
   * A read burst so far, from `buffered0` bytes in the stream and `chunks0`
   * delivered: `results` and `pieces` record each read's result and the bytes
   * it took, as `Reads` states; the reads took the stream's bytes in order,
   * leaving `buffered`; and, if the sequence was still open, one padded chunk
   * per read was delivered after `chunks0`.
   */
  ghost predicate Progress(buffered0: seq<byte>, chunks0: seq<seq<byte>>, open: bool, size: nat,
                           results: seq<int>, pieces: seq<seq<byte>>, buffered: seq<byte>, chunks: seq<seq<byte>>)
  {
    && |results| >= 1
    && Reads(results, pieces, size, |buffered0|)
    && buffered0 == Flatten(pieces) + buffered
    && (ReadsElements(results, pieces, size, |buffered0|);
        chunks == chunks0 + (if open then ChunksOf(pieces, size) else []))
  }

  /** The first read of a burst starts it. */
  lemma ProgressStart(buffered0: seq<byte>, chunks0: seq<seq<byte>>, open: bool, size: nat,
                      r: int, bytes: seq<byte>, buffered': seq<byte>, chunks': seq<seq<byte>>)
    requires -1 <= r <= size && |bytes| == (if r > 0 then r else 0)
    requires buffered0 == bytes + buffered'
    requires chunks' == chunks0 + (if open then [ChunkOf(bytes, size)] else [])
    ensures Progress(buffered0, chunks0, open, size, [r], [bytes], buffered', chunks')
  {
    assert Flatten([bytes]) == Flatten([]) + bytes;
    assert ChunksOf([bytes], size) == ChunksOf([], size) + [ChunkOf(bytes, size)];
    assert Reads([], [], size, |buffered0|);
  }

  /** One more read, after one that returned more than 0 and left bytes available, extends the burst. */
  lemma ProgressStep(buffered0: seq<byte>, chunks0: seq<seq<byte>>, open: bool, size: nat,
                     results: seq<int>, pieces: seq<seq<byte>>, buffered: seq<byte>, chunks: seq<seq<byte>>,
                     r: int, bytes: seq<byte>, buffered': seq<byte>, chunks': seq<seq<byte>>)
    requires Progress(buffered0, chunks0, open, size, results, pieces, buffered, chunks)
    requires results[|results| - 1] > 0 && |buffered| > 0
    requires -1 <= r <= size && |bytes| == (if r > 0 then r else 0)
    requires buffered == bytes + buffered'
    requires chunks' == chunks + (if open then [ChunkOf(bytes, size)] else [])
    ensures Progress(buffered0, chunks0, open, size, results + [r], pieces + [bytes], buffered', chunks')
  {
    FlattenAppend(pieces, bytes);
    ReadsElements(results, pieces, size, |buffered0|);
    ChunksOfAppend(pieces, bytes, size);
    assert buffered0 == Flatten(pieces) + bytes + buffered';
    assert (results + [r])[..|results|] == results;
    assert (pieces + [bytes])[..|pieces|] == pieces;
  }

  /** A first read that takes every byte the stream held ends the burst: there is no second read. */
  lemma DrainingReadIsLast(buffered0: seq<byte>, chunks0: seq<seq<byte>>, open: bool, size: nat,
                           results: seq<int>, pieces: seq<seq<byte>>, buffered: seq<byte>, chunks: seq<seq<byte>>)
    requires Progress(buffered0, chunks0, open, size, results, pieces, buffered, chunks)
    requires |pieces[0]| == |buffered0|
    ensures |results| == 1 && buffered == []
  {
    ReadsElements(results, pieces, size, |buffered0|);
    assert pieces[..1] == [pieces[0]];
    assert Flatten([pieces[0]]) == Flatten([]) + pieces[0];
    assert pieces == [pieces[0]];
  }

  class InputBridge {
    const inputStream: InputStream
    const continuation: DataContinuation
    const bufferSize: nat
    /** The `isReading` flag the `read` closure captures. */
    var isReading: bool
    /** `delegate.eventUpdateClosure != nil`. */
    var handlerInstalled: bool

    /** A terminated sequence has run `onTermination`, which cleared the event closure. */
    predicate Valid()
      reads this, continuation
    {
      continuation.termination.Some? ==> !handlerInstalled
    }

    /** `init(inputStream:bufferSize:)`: installs the handler, then schedules and opens the stream. */
    constructor (inputStream: InputStream, bufferSize: nat)
      modifies inputStream
      ensures this.inputStream == inputStream && this.bufferSize == bufferSize
      ensures fresh(continuation) && continuation.chunks == [] && continuation.termination == None
      ensures Valid() && !isReading && handlerInstalled
      ensures inputStream.calls == old(inputStream.calls) + [Schedule, Open]
      ensures inputStream.buffered == old(inputStream.buffered) && inputStream.streamError == old(inputStream.streamError)
    {
      this.inputStream := inputStream;
      this.bufferSize := bufferSize;
      continuation := new DataContinuation();
      isReading := false;
      handlerInstalled := true;
      new;
      inputStream.Perform(Schedule);
      inputStream.Perform(Open);
    }

    /** `onTermination`: clears the event closure, then closes and unschedules the stream. */
    method OnTermination()
      modifies this, inputStream
      ensures !handlerInstalled && isReading == old(isReading)
      ensures inputStream.calls == old(inputStream.calls) + [Close, Remove]
      ensures inputStream.buffered == old(inputStream.buffered) && inputStream.streamError == old(inputStream.streamError)
    {
      handlerInstalled := false;
      inputStream.Perform(Close);
      inputStream.Perform(Remove);
    }

    /** Terminates the sequence with `t`, running `onTermination` when this is the first termination. */
    method TerminateWith(t: Termination)
      requires Valid()
      modifies this, inputStream, continuation
      ensures Valid() && isReading == old(isReading)
      ensures continuation.chunks == old(continuation.chunks)
      ensures inputStream.buffered == old(inputStream.buffered) && inputStream.streamError == old(inputStream.streamError)
      ensures old(continuation.termination).None? ==>
        continuation.termination == Some(t) && !handlerInstalled
        && inputStream.calls == old(inputStream.calls) + [Close, Remove]
      ensures old(continuation.termination).Some? ==>
        continuation.termination == old(continuation.termination)
        && handlerInstalled == old(handlerInstalled) && inputStream.calls == old(inputStream.calls)
    {
      var first := continuation.Terminate(t);
      if first {
        OnTermination();
      }
    }

    /** One pass of the `repeat` body: read into a zeroed buffer and yield the buffer. */
    method ReadOnce() returns (result: int, bytes: seq<byte>)
      modifies inputStream, continuation
      ensures -1 <= result <= bufferSize && |bytes| == (if result > 0 then result else 0)
      ensures old(inputStream.buffered) == bytes + inputStream.buffered
      ensures result <= 0 ==> inputStream.buffered == old(inputStream.buffered)
      ensures inputStream.calls == old(inputStream.calls)
      ensures continuation.termination == old(continuation.termination)
      ensures continuation.chunks == old(continuation.chunks)
        + (if old(continuation.termination).None? then [ChunkOf(bytes, bufferSize)] else [])
    {
      result, bytes := inputStream.Read(bufferSize);
      assert old(inputStream.buffered) == old(inputStream.buffered)[..|bytes|] + old(inputStream.buffered)[|bytes|..];
      var buffer := ChunkOf(bytes, bufferSize);
      continuation.Yield(buffer);
    }

    /**
     * A further pass of the `repeat` body, after one that returned more than 0
     * while bytes are still available, extends the burst.
     */
    method ReadMore(ghost buffered0: seq<byte>, ghost chunks0: seq<seq<byte>>, ghost results: seq<int>,
                    ghost pieces: seq<seq<byte>>) returns (result: int, bytes: seq<byte>)
      requires Progress(buffered0, chunks0, continuation.termination.None?, bufferSize, results, pieces,
                        inputStream.buffered, continuation.chunks)
      requires results[|results| - 1] > 0 && inputStream.HasBytesAvailable()
      modifies inputStream, continuation
      ensures Progress(buffered0, chunks0, continuation.termination.None?, bufferSize, results + [result],
                       pieces + [bytes], inputStream.buffered, continuation.chunks)
      ensures |inputStream.buffered| + (if result > 0 then 1 else 0) <= |old(inputStream.buffered)|
      ensures continuation.termination == old(continuation.termination)
      ensures inputStream.calls == old(inputStream.calls)
    {
      ghost var buffered := inputStream.buffered;
      ghost var chunks := continuation.chunks;
      result, bytes := ReadOnce();
      ProgressStep(buffered0, chunks0, continuation.termination.None?, bufferSize, results, pieces, buffered, chunks,
                   result, bytes, inputStream.buffered, continuation.chunks);
    }

    /** The `repeat`-`while` loop of static `read(from:bufferSize:continuation:)`. */
    method ReadLoop() returns (results: seq<int>, pieces: seq<seq<byte>>)
      modifies inputStream, continuation
      ensures Progress(old(inputStream.buffered), old(continuation.chunks), old(continuation.termination).None?,
                       bufferSize, results, pieces, inputStream.buffered, continuation.chunks)
      ensures results[|results| - 1] > 0 ==> !inputStream.HasBytesAvailable()
      ensures continuation.termination == old(continuation.termination)
      ensures inputStream.calls == old(inputStream.calls)
    {
      ghost var buffered0 := inputStream.buffered;
      ghost var chunks0 := continuation.chunks;
      var result, bytes := ReadOnce();
      ProgressStart(buffered0, chunks0, continuation.termination.None?, bufferSize, result, bytes,
                    inputStream.buffered, continuation.chunks);
      results, pieces := [result], [bytes];
      while result > 0 && inputStream.HasBytesAvailable()
        invariant Progress(buffered0, chunks0, continuation.termination.None?, bufferSize, results, pieces,
                           inputStream.buffered, continuation.chunks)
        invariant result == results[|results| - 1]
        invariant continuation.termination == old(continuation.termination)
        invariant inputStream.calls == old(inputStream.calls)
        decreases |inputStream.buffered| + (if result > 0 then 1 else 0)
      {
        result, bytes := ReadMore(buffered0, chunks0, results, pieces);
        results, pieces := results + [result], pieces + [bytes];
      }
    }

    /**
     * Static `read(from:bufferSize:continuation:)`: at least one read; another
     * only while the last one returned more than 0 and bytes are available;
     * one chunk of `bufferSize` bytes yielded per read; and the sequence finished
     * afterwards, whatever the reads returned.
     */
    method ReadBurst() returns (results: seq<int>, pieces: seq<seq<byte>>)
      requires Valid()
      modifies this, inputStream, continuation
      ensures Valid() && isReading == old(isReading)
      ensures Burst(this, results, pieces)
    {
      results, pieces := ReadLoop();
      TerminateWith(Ended(Finished));
    }

    /** The `read` closure: does nothing while a burst is running, else runs one and clears the flag. */
    method Read() returns (results: seq<int>, pieces: seq<seq<byte>>)
      requires Valid()
      modifies this, inputStream, continuation
      ensures Valid()
      ensures isReading == old(isReading)
      ensures old(isReading) ==> results == [] && unchanged(this) && unchanged(inputStream) && unchanged(continuation)
      ensures !old(isReading) ==> Burst(this, results, pieces)
    {
      results, pieces := [], [];
      if isReading {
        return;
      }
      isReading := true;
      results, pieces := ReadBurst();
      isReading := false;
    }

    /**
     * The event closure. Once cleared by `onTermination`, events reach nothing.
     * `openCompleted` and `hasBytesAvailable` run the `read` closure;
     * `errorOccurred` finishes with the stream's error; `endEncountered` finishes
     * without error; other events are ignored.
     */
    method HandleEvent(event: StreamEvent) returns (results: seq<int>, pieces: seq<seq<byte>>)
      requires Valid()
      modifies this, inputStream, continuation
      ensures Valid()
      ensures isReading == old(isReading)
      ensures !old(handlerInstalled) || event == HasSpaceAvailable ==>
        results == [] && unchanged(this) && unchanged(inputStream) && unchanged(continuation)
      ensures old(handlerInstalled) && event in {OpenCompleted, HasBytesAvailable} && !old(isReading) ==>
        Burst(this, results, pieces)
      ensures old(handlerInstalled) && event in {OpenCompleted, HasBytesAvailable} && old(isReading) ==>
        results == [] && unchanged(this) && unchanged(inputStream) && unchanged(continuation)
      ensures old(handlerInstalled) && event in {ErrorOccurred, EndEncountered} ==>
        results == [] && continuation.chunks == old(continuation.chunks)
        && inputStream.buffered == old(inputStream.buffered) && inputStream.streamError == old(inputStream.streamError)
        && continuation.termination == (if old(continuation.termination).Some? then old(continuation.termination)
          else if event == ErrorOccurred then Some(Ended(FinishedThrowing(ErrorOf(old(inputStream.streamError)))))
          else Some(Ended(Finished)))
        && (old(continuation.termination).None? ==>
              !handlerInstalled && inputStream.calls == old(inputStream.calls) + [Close, Remove])
        && (old(continuation.termination).Some? ==>
              handlerInstalled == old(handlerInstalled) && inputStream.calls == old(inputStream.calls))
    {
      results, pieces := [], [];
      if !handlerInstalled {
        return;
      }
      match event
      case OpenCompleted =>
        results, pieces := Read();
      case HasBytesAvailable =>
        results, pieces := Read();
      case ErrorOccurred =>
        TerminateWith(Ended(FinishedThrowing(ErrorOf(inputStream.streamError))));
      case EndEncountered =>
        TerminateWith(Ended(Finished));
      case HasSpaceAvailable =>
    }

    /** The consumer stops iterating: the sequence is cancelled, and `onTermination` runs if it had not. */
    method Cancel()
      requires Valid()
      modifies this, inputStream, continuation
      ensures Valid()
      ensures isReading == old(isReading) && !handlerInstalled
      ensures continuation.chunks == old(continuation.chunks)
      ensures continuation.termination == if old(continuation.termination).Some? then old(continuation.termination) else Some(Cancelled)
      ensures inputStream.buffered == old(inputStream.buffered) && inputStream.streamError == old(inputStream.streamError)
      ensures inputStream.calls == old(inputStream.calls) + (if old(continuation.termination).None? then [Close, Remove] else [])
    {
      TerminateWith(Cancelled);
    }
  }

  /**
   * What one read burst did, given the results `results` and the bytes `pieces`
   * each read took: the reads took the stream's bytes in order; every read but
   * the last returned more than 0 and left bytes available, and the last one
   * returned 0 or -1 or left no bytes available; the continuation received one padded chunk per read
   * unless it had already terminated; and the sequence is now finished, with
   * `onTermination` run if this finished it.
   */
  twostate predicate Burst(b: InputBridge, results: seq<int>, pieces: seq<seq<byte>>)
    reads b, b.inputStream, b.continuation
  {
    Progress(old(b.inputStream.buffered), old(b.continuation.chunks), old(b.continuation.termination).None?,
             b.bufferSize, results, pieces, b.inputStream.buffered, b.continuation.chunks)
    && (results[|results| - 1] > 0 ==> !b.inputStream.HasBytesAvailable())
    && (old(b.continuation.termination).None? ==>
          b.continuation.termination == Some(Ended(Finished))
          && !b.handlerInstalled
          && b.inputStream.calls == old(b.inputStream.calls) + [Close, Remove])
    && (old(b.continuation.termination).Some? ==>
          b.continuation.termination == old(b.continuation.termination)
          && b.handlerInstalled == old(b.handlerInstalled)
          && b.inputStream.calls == old(b.inputStream.calls))
  }
}
