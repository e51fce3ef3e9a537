/**
 * `OutputStream.Writer`: the bridge from an `async` write API to a Foundation
 * output stream. It keeps a single pending-write slot; `triggerNextWrite` takes
 * the slot, writes it, and puts back whatever the stream did not accept.
 *
 * Event delivery, which the source routes through a serial dispatch queue, is
 * modelled as sequential method calls. A continuation is a cell that logs every
 * resumption, so "resumed exactly once" is a statement about the log's length.
 */
module OutputWriters {
  import opened Base
  import opened Streams

  /** The writer's errors: the stream's own, `unknownOutputError`, `closedUnexpectedly`. */
  datatype WriteError = StreamFailed(cause: NativeError) | UnknownOutputError | ClosedUnexpectedly

  /** How a writing task was resumed: returning, or throwing `error`. */
  datatype WriteOutcome = Succeeded | Failed(error: WriteError)

  /** `outputStream.streamError ?? Error.unknownOutputError`. */
  function ErrorOf(streamError: Option<NativeError>): (e: WriteError)
    ensures e == UnknownOutputError <==> streamError.None?
  {
    match streamError
    case Some(cause) => StreamFailed(cause)
    case None => UnknownOutputError
  }

  /** A `CheckedContinuation<Void, Error>`, logging every resumption. */
  class Continuation {
    var resumptions: seq<WriteOutcome>

    constructor ()
      ensures resumptions == []
    {
      resumptions := [];
    }

    method Resume(outcome: WriteOutcome)
      modifies this
      ensures resumptions == old(resumptions) + [outcome]
    {
      resumptions := resumptions + [outcome];
    }
  }

  /**
   * The output stream as the writer sees it: `write(_:maxLength:)` accepts a prefix
   * of the data and returns its length, or returns -1 and may set `streamError`.
   * How much is accepted is the platform's choice, so the model leaves it open.
   */
  class OutputStream {
    var accepted: seq<byte>
    var streamError: Option<NativeError>
    var calls: seq<StreamCall>

    constructor ()
      ensures accepted == [] && streamError == None && calls == []
    {
      accepted := [];
      streamError := None;
      calls := [];
    }

    method Write(data: seq<byte>) returns (r: int)
      modifies this
      ensures -1 <= r <= |data|
      ensures r >= 0 ==> accepted == old(accepted) + data[..r] && streamError == old(streamError)
      ensures r < 0 ==> accepted == old(accepted)
      ensures calls == old(calls)
    {
      r :| -1 <= r <= |data|;
      if r >= 0 {
        accepted := accepted + data[..r];
      } else {
        var e: Option<NativeError> :| true;
        streamError := e;
      }
    }

    /** `schedule(in:forMode:)`, `open()`, `remove(from:forMode:)` and `close()`. */
    method Perform(call: StreamCall)
      modifies this
      ensures calls == old(calls) + [call]
      ensures accepted == old(accepted) && streamError == old(streamError)
    {
      calls := calls + [call];
    }
  }

  /** `nextWriteTask`: the bytes still to write and the continuation waiting for them. */
  datatype PendingWrite = PendingWrite(data: seq<byte>, continuation: Continuation)

  /** The number of bytes a run of `write` results accepted. */
  function Accepted(results: seq<int>): int
    decreases |results|
  {
    if results == [] then 0
    else Accepted(results[..|results| - 1]) + (if results[|results| - 1] > 0 then results[|results| - 1] else 0)
  }

  lemma {:induction false} AcceptedNothing(results: seq<int>)
    requires forall i :: 0 <= i < |results| ==> results[i] == 0
    ensures Accepted(results) == 0
    decreases |results|
  {
    if results != [] {
      AcceptedNothing(results[..|results| - 1]);
    }
  }

  /**
   * How far writing `data` for continuation `c` has got after the `write` results
   * `results`, over plain values: the stream received the first bytes of the data
   * and nothing else; every write before the last accepted something or nothing
   * but did not fail, and left bytes still to write; and either the rest of the data waits in the slot with the
   * continuation not yet resumed, or the slot is empty and the continuation was
   * resumed exactly once, with success after the whole data or with the stream's
   * error after a failed write.
   */
  ghost predicate Progress(data: seq<byte>, c: Continuation, before: seq<WriteOutcome>, acceptedBefore: seq<byte>,
                           results: seq<int>, accepted: seq<byte>, slot: Option<PendingWrite>,
                           resumptions: seq<WriteOutcome>, streamError: Option<NativeError>)
  {
    var n := Accepted(results);
    && 0 <= n <= |data|
    && accepted == acceptedBefore + data[..n]
    && (forall i :: 0 <= i < |results| - 1 ==> results[i] >= 0)
    && (forall j :: 0 < j < |results| ==> Accepted(results[..j]) < |data|)
    && (slot.Some? ==>
          (results == [] || n < |data|)
          && (forall i :: 0 <= i < |results| ==> results[i] >= 0)
          && slot == Some(PendingWrite(data[n..], c))
          && resumptions == before)
    && (slot.None? ==>
          |results| >= 1
          && (results[|results| - 1] >= 0 ==> n == |data| && resumptions == before + [Succeeded])
          && (results[|results| - 1] < 0 ==> resumptions == before + [Failed(ErrorOf(streamError))]))
  }

  /** Every write so far left bytes to write, so after one more write, every one but the last still did. */
  lemma LeftPendingStep(results: seq<int>, result: int, total: int)
    requires forall j :: 0 < j < |results| ==> Accepted(results[..j]) < total
    requires results == [] || Accepted(results) < total
    ensures forall j :: 0 < j < |results| + 1 ==> Accepted((results + [result])[..j]) < total
  {
    forall j | 0 < j < |results| + 1
      ensures Accepted((results + [result])[..j]) < total
    {
      assert (results + [result])[..j] == results[..j];
    }
  }

  /** One more write of the pending rest, with the effect `WriteOnce` states, keeps `Progress`. */
  lemma ProgressStep(data: seq<byte>, c: Continuation, before: seq<WriteOutcome>, acceptedBefore: seq<byte>,
                     results: seq<int>, accepted: seq<byte>, rest: seq<byte>, result: int,
                     accepted': seq<byte>, slot': Option<PendingWrite>, resumptions': seq<WriteOutcome>,
                     streamError': Option<NativeError>)
    requires Progress(data, c, before, acceptedBefore, results, accepted, Some(PendingWrite(rest, c)), before, streamError')
    requires -1 <= result <= |rest|
    requires result >= 0 ==> accepted' == accepted + rest[..result]
    requires result < 0 ==> accepted' == accepted
    requires 0 <= result == |rest| ==> slot' == None && resumptions' == before + [Succeeded]
    requires 0 <= result < |rest| ==> slot' == Some(PendingWrite(rest[result..], c)) && resumptions' == before
    requires result < 0 ==> slot' == None && resumptions' == before + [Failed(ErrorOf(streamError'))]
    ensures Progress(data, c, before, acceptedBefore, results + [result], accepted', slot', resumptions', streamError')
  {
    var n := Accepted(results);
    var results' := results + [result];
    assert results'[..|results|] == results;
    LeftPendingStep(results, result, |data|);
    assert rest == data[n..];
    if result >= 0 {
      assert data[..n] + rest[..result] == data[..n + result];
      assert rest[result..] == data[n + result..];
    }
  }

  /**
   * The write that completes the data is the last one: the slot is then empty,
   * and if that write did not fail the continuation was resumed with success.
   */
  lemma CompletingWriteIsLast(data: seq<byte>, c: Continuation, before: seq<WriteOutcome>, acceptedBefore: seq<byte>,
                              results: seq<int>, accepted: seq<byte>, slot: Option<PendingWrite>,
                              resumptions: seq<WriteOutcome>, streamError: Option<NativeError>, j: nat)
    requires Progress(data, c, before, acceptedBefore, results, accepted, slot, resumptions, streamError)
    requires 0 < j <= |results| && Accepted(results[..j]) == |data|
    ensures j == |results| && slot == None
    ensures results[j - 1] >= 0 ==> resumptions == before + [Succeeded]
  {
    assert results[..|results|] == results;
  }

  /**
   * What taking `task` out of the slot and writing it achieved, given the `write`
   * results `results`, of which there were at most `fuel`: `Progress` from the
   * task, and the rest of the data is back in the slot only when the fuel ran out.
   */
  twostate predicate Delivered(w: Writer, task: PendingWrite, fuel: nat, stalled: bool, results: seq<int>)
    reads w, w.outputStream, task.continuation
  {
    && |results| <= fuel
    && (stalled <==> w.nextWriteTask.Some?)
    && (stalled ==> |results| == fuel)
    && Progress(task.data, task.continuation, old(task.continuation.resumptions), old(w.outputStream.accepted),
                results, w.outputStream.accepted, w.nextWriteTask, task.continuation.resumptions,
                w.outputStream.streamError)
  }

  class Writer {
    const outputStream: OutputStream
    /** `streamDelegate != nil`: an event handler is installed. */
    var hasDelegate: bool
    var finishCalled: bool
    var nextWriteTask: Option<PendingWrite>

    constructor (outputStream: OutputStream)
      ensures this.outputStream == outputStream
      ensures !hasDelegate && !finishCalled && nextWriteTask == None
    {
      this.outputStream := outputStream;
      hasDelegate := false;
      finishCalled := false;
      nextWriteTask := None;
    }

    /** The continuation waiting in the slot, if any. */
    function SlotFootprint(): set<object>
      reads this
    {
      if nextWriteTask.Some? then {nextWriteTask.value.continuation} else {}
    }

    /**
     * One pass of `triggerNextWrite`: take the slot, write it once, then resume the
     * continuation on success or failure, or put the unwritten rest back.
     */
    method WriteOnce() returns (result: int)
      requires nextWriteTask.Some?
      modifies this, outputStream, nextWriteTask.value.continuation
      ensures hasDelegate == old(hasDelegate) && finishCalled == old(finishCalled)
      ensures outputStream.calls == old(outputStream.calls)
      ensures var task := old(nextWriteTask).value;
        && -1 <= result <= |task.data|
        && (result >= 0 ==> outputStream.accepted == old(outputStream.accepted) + task.data[..result])
        && (result < 0 ==> outputStream.accepted == old(outputStream.accepted))
        && (0 <= result == |task.data| ==>
              nextWriteTask == None && task.continuation.resumptions == old(task.continuation.resumptions) + [Succeeded])
        && (0 <= result < |task.data| ==>
              nextWriteTask == Some(PendingWrite(task.data[result..], task.continuation))
              && task.continuation.resumptions == old(task.continuation.resumptions))
        && (result < 0 ==>
              nextWriteTask == None
              && task.continuation.resumptions == old(task.continuation.resumptions) + [Failed(ErrorOf(outputStream.streamError))])
    {
      var task := nextWriteTask.value;
      nextWriteTask := None;
      result := outputStream.Write(task.data);
      if result >= 0 {
        var restOfData := task.data[result..];
        if restOfData == [] {
          task.continuation.Resume(Succeeded);
        } else {
          nextWriteTask := Some(PendingWrite(restOfData, task.continuation));
        }
      } else {
        task.continuation.Resume(Failed(ErrorOf(outputStream.streamError)));
      }
    }

    /**
     * `triggerNextWrite`. The source recurses until the slot stays empty; a write
     * that accepts nothing puts the same data back and recurses again, so with a
     * stream that keeps accepting nothing it never returns. The model bounds the
     * number of `write` calls by `fuel` and reports `stalled` when that runs out.
     */
    method TriggerNextWrite(fuel: nat) returns (stalled: bool, results: seq<int>)
      modifies this, outputStream, SlotFootprint()
      ensures hasDelegate == old(hasDelegate) && finishCalled == old(finishCalled)
      ensures outputStream.calls == old(outputStream.calls)
      ensures old(nextWriteTask).None? ==>
        !stalled && results == [] && unchanged(this) && unchanged(outputStream)
      ensures old(nextWriteTask).Some? ==> Delivered(this, old(nextWriteTask).value, fuel, stalled, results)
      /** A stream that accepts nothing, ever, leaves non-empty data pending. */
      ensures (old(nextWriteTask).Some? && |old(nextWriteTask).value.data| > 0
               && forall i :: 0 <= i < |results| ==> results[i] == 0) ==> stalled
    {
      stalled := false;
      results := [];
      if nextWriteTask.None? {
        return;
      }
      ghost var data := nextWriteTask.value.data;
      ghost var c := nextWriteTask.value.continuation;
      ghost var before := c.resumptions;
      ghost var acceptedBefore := outputStream.accepted;
      assert data[0..] == data;
      while nextWriteTask.Some? && |results| < fuel
        invariant |results| <= fuel
        invariant outputStream.calls == old(outputStream.calls)
        invariant hasDelegate == old(hasDelegate) && finishCalled == old(finishCalled)
        invariant Progress(data, c, before, acceptedBefore, results, outputStream.accepted, nextWriteTask,
                           c.resumptions, outputStream.streamError)
        decreases fuel - |results|
      {
        ghost var rest := nextWriteTask.value.data;
        ghost var acc := outputStream.accepted;
        var result := WriteOnce();
        ProgressStep(data, c, before, acceptedBefore, results, acc, rest, result,
                     outputStream.accepted, nextWriteTask, c.resumptions, outputStream.streamError);
        results := results + [result];
      }
      stalled := nextWriteTask.Some?;
      if |data| > 0 && forall i :: 0 <= i < |results| ==> results[i] == 0 {
        AcceptedNothing(results);
      }
    }

    /** `openIfNeeded`: installs the event handler, schedules and opens, once per handler. */
    method OpenIfNeeded()
      modifies this, outputStream
      ensures hasDelegate && finishCalled == old(finishCalled) && nextWriteTask == old(nextWriteTask)
      ensures outputStream.calls == old(outputStream.calls) + (if old(hasDelegate) then [] else [Schedule, Open])
      ensures outputStream.accepted == old(outputStream.accepted) && outputStream.streamError == old(outputStream.streamError)
    {
      if hasDelegate {
        return;
      }
      hasDelegate := true;
      outputStream.Perform(Schedule);
      outputStream.Perform(Open);
    }

    /**
     * `write(data:)`: overwrites the slot (a task already waiting there is dropped
     * without being resumed), opens the stream if needed and writes.
     */
    method Write(data: seq<byte>, continuation: Continuation, fuel: nat) returns (stalled: bool, results: seq<int>)
      modifies this, outputStream, continuation
      ensures hasDelegate && finishCalled == old(finishCalled)
      ensures outputStream.calls == old(outputStream.calls) + (if old(hasDelegate) then [] else [Schedule, Open])
      ensures Delivered(this, PendingWrite(data, continuation), fuel, stalled, results)
    {
      nextWriteTask := Some(PendingWrite(data, continuation));
      OpenIfNeeded();
      stalled, results := TriggerNextWrite(fuel);
    }

    /**
     * `finish`: the first call clears the handler and the slot, without resuming
     * the task in it, then unschedules and closes the stream; later calls do nothing.
     */
    method Finish()
      modifies this, outputStream
      ensures finishCalled
      ensures old(finishCalled) ==> unchanged(this) && unchanged(outputStream)
      ensures !old(finishCalled) ==>
        !hasDelegate && nextWriteTask == None
        && outputStream.calls == old(outputStream.calls) + [Remove, Close]
        && outputStream.accepted == old(outputStream.accepted) && outputStream.streamError == old(outputStream.streamError)
    {
      if finishCalled {
        return;
      }
      finishCalled := true;
      hasDelegate := false;
      nextWriteTask := None;
      outputStream.Perform(Remove);
      outputStream.Perform(Close);
    }

    /**
     * The event handler `openIfNeeded` installs. Without an installed handler the
     * event reaches nothing. `hasSpaceAvailable` writes the slot; `errorOccurred`
     * resumes a waiting task with the stream's error; `endEncountered` resumes it
     * with `closedUnexpectedly` unless `finish` was called; other events are ignored.
     */
    method HandleEvent(event: StreamEvent, fuel: nat) returns (stalled: bool, results: seq<int>)
      modifies this, outputStream, SlotFootprint()
      ensures hasDelegate == old(hasDelegate) && finishCalled == old(finishCalled)
      ensures outputStream.calls == old(outputStream.calls)
      ensures !old(hasDelegate) || event in {OpenCompleted, HasBytesAvailable} ==>
        !stalled && results == [] && unchanged(this) && unchanged(outputStream)
      ensures old(hasDelegate) && event == HasSpaceAvailable && old(nextWriteTask).None? ==>
        !stalled && results == [] && unchanged(this) && unchanged(outputStream)
      ensures old(hasDelegate) && event == HasSpaceAvailable && old(nextWriteTask).Some? ==>
        Delivered(this, old(nextWriteTask).value, fuel, stalled, results)
      ensures old(hasDelegate) && (event == ErrorOccurred || (event == EndEncountered && !finishCalled)) ==>
        !stalled && results == [] && nextWriteTask == None && unchanged(outputStream)
        && (old(nextWriteTask).Some? ==>
              var c := old(nextWriteTask).value.continuation;
              c.resumptions == old(c.resumptions) + [Failed(
                if event == ErrorOccurred then ErrorOf(outputStream.streamError) else ClosedUnexpectedly)])
      ensures old(hasDelegate) && event == EndEncountered && finishCalled ==>
        !stalled && results == [] && unchanged(this) && unchanged(outputStream)
    {
      stalled, results := false, [];
      if !hasDelegate {
        return;
      }
      match event
      case HasSpaceAvailable =>
        stalled, results := TriggerNextWrite(fuel);
      case ErrorOccurred =>
        if nextWriteTask.Some? {
          nextWriteTask.value.continuation.Resume(Failed(ErrorOf(outputStream.streamError)));
        }
        nextWriteTask := None;
      case EndEncountered =>
        if finishCalled {
          return;
        }
        if nextWriteTask.Some? {
          nextWriteTask.value.continuation.Resume(Failed(ClosedUnexpectedly));
        }
        nextWriteTask := None;
      case _ =>
    }
  }
}
