/** Vocabulary shared by the two Foundation stream bridges and the request driver. */
module Streams {

  /** A stream's `streamError`: an error value the platform supplies. */
  datatype NativeError = NativeError(domain: string, code: int)

  /** The `Stream.Event` values the bridges tell apart. */
  datatype StreamEvent = OpenCompleted | HasBytesAvailable | HasSpaceAvailable | ErrorOccurred | EndEncountered

  /** Run-loop and lifecycle calls made on a stream, in the order they are made. */
  datatype StreamCall = Schedule | Open | Remove | Close

  /** How an inbound chunk sequence ended: finished, or finished throwing `error`. */
  datatype InputEnd<E> = Finished | FinishedThrowing(error: E)
}
