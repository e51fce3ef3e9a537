/**
 * `WebServer`: the listening socket and the task that serves its connections,
 * both optional, set by `start` and cleared by `stop`. The lifecycle is first
 * stated on values (`Lifecycle`, `StartSpec`, `StopSpec`), then the class is
 * proved to follow it.
 */
module WebServers {
  import opened Base
  import opened Streams
  import opened InternetAddresses
  import opened SocketAddresses
  import InputReaders
  import OutputWriters

  /** `CFSocketError` other than `.success`: the reason binding the address failed. */
  type BindError = int

  datatype ServerError = AlreadyRunning | FailedToStart(cause: BindError)

  // ---------------------------------------------------------------------------
  // The lifecycle on values

  /** Which of `socket` and `connectionTask` are set. */
  datatype Lifecycle = Lifecycle(socketSet: bool, taskSet: bool)

  const Stopped := Lifecycle(false, false)

  /**
   * `start`: refused while a socket is set; otherwise the socket is set before
   * binding, and the task only once binding succeeded. `bindResult` is what
   * binding the address returns.
   */
  function StartSpec(s: Lifecycle, bindResult: Option<BindError>): (r: (Lifecycle, Result<(), ServerError>))
    ensures s.socketSet ==> r == (s, Err(AlreadyRunning))
    ensures !s.socketSet ==> r.0.socketSet
    ensures !s.socketSet ==> (r.1.Ok? <==> bindResult.None?) && (r.1.Ok? ==> r.0.taskSet)
    ensures !s.socketSet && bindResult.Some? ==> r.1 == Err(FailedToStart(bindResult.value)) && r.0.taskSet == s.taskSet
  {
    if s.socketSet then (s, Err(AlreadyRunning))
    else match bindResult
      case Some(e) => (Lifecycle(true, s.taskSet), Err(FailedToStart(e)))
      case None => (Lifecycle(true, true), Ok(()))
  }

  /**
   * `stop`: whatever was set is cleared and nothing fails, so the state after it is
   * `Stopped` whatever it was before; the parameter only keeps `Apply` uniform.
   */
  function StopSpec(s: Lifecycle): Lifecycle {
    Stopped
  }

  datatype Op = Start(bindResult: Option<BindError>) | Stop

  function Apply(s: Lifecycle, op: Op): Lifecycle {
    match op
    case Start(b) => StartSpec(s, b).0
    case Stop => StopSpec(s)
  }

  /** The state after a sequence of calls. */
  function Run(s: Lifecycle, ops: seq<Op>): Lifecycle
    decreases |ops|
  {
    if ops == [] then s else Run(Apply(s, ops[0]), ops[1..])
  }

  /** A task is only ever set together with a socket. */
  predicate Consistent(s: Lifecycle) {
    s.taskSet ==> s.socketSet
  }

  lemma {:induction false} RunConsistent(s: Lifecycle, ops: seq<Op>)
    requires Consistent(s)
    ensures Consistent(Run(s, ops))
    decreases |ops|
  {
    if ops != [] {
      RunConsistent(Apply(s, ops[0]), ops[1..]);
    }
  }

  /**
   * A failed start leaves the socket set, so every later start is refused with
   * `alreadyRunning`, and changes nothing, until `stop` is called.
   */
  lemma {:induction false} FailedStartBlocks(s: Lifecycle, e: BindError, starts: seq<Option<BindError>>)
    requires !s.socketSet
    ensures var failed := StartSpec(s, Some(e)).0;
      failed.socketSet
      && Run(failed, seq(|starts|, i requires 0 <= i < |starts| => Start(starts[i]))) == failed
      && forall i :: 0 <= i < |starts| ==> StartSpec(failed, starts[i]).1 == Err(AlreadyRunning)
    decreases |starts|
  {
    var failed := StartSpec(s, Some(e)).0;
    var ops := seq(|starts|, i requires 0 <= i < |starts| => Start(starts[i]));
    if starts != [] {
      FailedStartBlocks(s, e, starts[1..]);
      assert ops[1..] == seq(|starts[1..]|, i requires 0 <= i < |starts[1..]| => Start(starts[1..][i]));
    }
  }

  /**
   * After `stop`, from any state, `start` is permitted again and succeeds when binding does.
   * As `StopSpec` is constant, this is `StartSpec` on `Stopped`: the point is that `stop`
   * leaves nothing behind that the guard in `start` would see.
   */
  lemma StopPermitsStart(s: Lifecycle, bindResult: Option<BindError>)
    ensures StartSpec(StopSpec(s), bindResult).1 != Err(AlreadyRunning)
    ensures StartSpec(StopSpec(s), bindResult).1.Ok? <==> bindResult.None?
  {
  }

  // ---------------------------------------------------------------------------
  // The class

  /** The listening socket as the server uses it: bound and listening, then invalidated. */
  class Socket {
    const address: SocketAddress
    var listening: bool
    var invalidated: bool

    /** `init(address:port:)`. */
    constructor (address: InternetAddress, port: uint16)
      ensures this.address == SocketAddresses.Init(address, port)
      ensures !listening && !invalidated
    {
      this.address := SocketAddresses.Init(address, port);
      listening := false;
      invalidated := false;
    }

    /** `start`: binds the address; on success adds the socket to the run loop. */
    method Start(bindResult: Option<BindError>) returns (r: Result<(), ServerError>)
      modifies this
      ensures bindResult.None? ==> r == Ok(())
      ensures bindResult.Some? ==> r == Err(FailedToStart(bindResult.value))
      ensures listening == (old(listening) || bindResult.None?) && invalidated == old(invalidated)
    {
      if bindResult.Some? {
        return Err(FailedToStart(bindResult.value));
      }
      listening := true;
      return Ok(());
    }

    /** `stop`: invalidates the socket. */
    method Stop()
      modifies this
      ensures invalidated && listening == old(listening)
    {
      invalidated := true;
    }
  }

  /** The detached task that serves the accepted connections. */
  class ConnectionTask {
    var cancelled: bool

    constructor ()
      ensures !cancelled
    {
      cancelled := false;
    }

    method Cancel()
      modifies this
      ensures cancelled
    {
      cancelled := true;
    }
  }

  class WebServer {
    var socket: Socket?
    var connectionTask: ConnectionTask?
    /** The input buffer size of the handlers the factory makes. */
    const inputBufferSize: nat
    /** How many handlers the factory has made. */
    var handlersMade: nat

    /** The lifecycle state the fields stand for. */
    function State(): Lifecycle
      reads this
    {
      Lifecycle(socket != null, connectionTask != null)
    }

    function Footprint(): set<object>
      reads this
    {
      (if socket != null then {socket} else {}) + (if connectionTask != null then {connectionTask} else {})
    }

    /** `init(streamHandler:)`. */
    constructor (inputBufferSize: nat)
      ensures State() == Stopped && this.inputBufferSize == inputBufferSize && handlersMade == 0
    {
      socket := null;
      connectionTask := null;
      this.inputBufferSize := inputBufferSize;
      handlersMade := 0;
    }

    /**
     * `start(address:port:)`. `bindResult` is what binding the address returns:
     * `None` for success.
     */
    method Start(address: InternetAddress, port: uint16, bindResult: Option<BindError>) returns (r: Result<(), ServerError>)
      modifies this
      ensures (State(), r) == StartSpec(old(State()), bindResult)
      ensures old(socket) != null ==> unchanged(this)
      ensures old(socket) == null ==>
        fresh(socket) && socket.address == SocketAddresses.Init(address, port)
        && !socket.invalidated && (socket.listening <==> r.Ok?)
      ensures old(socket) == null && r.Ok? ==> fresh(connectionTask) && !connectionTask.cancelled
      ensures old(socket) == null && r.Err? ==> connectionTask == old(connectionTask)
      ensures handlersMade == old(handlersMade)
    {
      if socket != null {
        return Err(AlreadyRunning);
      }
      var s := new Socket(address, port);
      socket := s;
      r := s.Start(bindResult);
      if r.Err? {
        return;
      }
      connectionTask := new ConnectionTask();
    }

    /** `stop`: cancels the task, invalidates the socket, then clears both. */
    method Stop()
      modifies this, Footprint()
      ensures State() == StopSpec(old(State()))
      ensures old(connectionTask) != null ==> old(connectionTask).cancelled
      ensures old(socket) != null ==> old(socket).invalidated
      ensures handlersMade == old(handlersMade)
    {
      if connectionTask != null {
        connectionTask.Cancel();
      }
      if socket != null {
        socket.Stop();
      }
      socket := null;
      connectionTask := null;
    }

    /** `deinit`: stops the server. */
    method Deinit()
      modifies this, Footprint()
      ensures State() == Stopped
      ensures old(connectionTask) != null ==> old(connectionTask).cancelled
      ensures old(socket) != null ==> old(socket).invalidated
    {
      Stop();
    }

    /**
     * `serve(input:output:)` up to the handler: a fresh handler from the factory,
     * a fresh chunk sequence over the input with the handler's buffer size, and a
     * fresh writer over the output.
     */
    method Serve(input: InputReaders.InputStream, output: OutputWriters.OutputStream)
      returns (chunks: InputReaders.InputBridge, writer: OutputWriters.Writer)
      modifies this, input
      ensures handlersMade == old(handlersMade) + 1 && State() == old(State())
      ensures fresh(chunks) && chunks.inputStream == input && chunks.bufferSize == inputBufferSize
      ensures fresh(chunks.continuation) && chunks.continuation.chunks == [] && chunks.Valid()
      ensures input.calls == old(input.calls) + [Schedule, Open] && input.buffered == old(input.buffered)
      ensures fresh(writer) && writer.outputStream == output && !writer.hasDelegate && writer.nextWriteTask == None
    {
      handlersMade := handlersMade + 1;
      chunks := new InputReaders.InputBridge(input, inputBufferSize);
      writer := new OutputWriters.Writer(output);
    }
  }
}
