/**
 * The incremental request-head parser of StreamHandling.swift and its driver,
 * `StreamHandler.parseRequest`: bytes are accumulated, up to a bound, until the
 * first CRLF CRLF (the end of the header section in the message framing of
 * section 2.1 of RFC 9112); what precedes it is the header block, what follows
 * it starts the body.
 */
module HeaderParsing {
  import opened Base
  import opened Text
  import opened RequestHeaders
  import opened Streams

  /** `maxHeaderSize`'s initial value, 8 KiB. */
  const DefaultMaxHeaderSize: int := 8 * 1024

  /** `"\r\n\r\n".utf8`. */
  const HeaderBodySeparator: seq<byte> := [13, 10, 13, 10]

  datatype ParserState = MoreDataNeeded | Ready(info: RequestHeaderInfo)

  /** What `parse` throws: its own size error, or the one `RequestHeaderInfo` rethrows. */
  datatype ParseError = MaxSizeReached | InvalidHeader(cause: HeaderError)

  /** The value of an `HttpHeaderParser`: its bound, its state and the bytes it holds. */
  datatype Parser = Parser(maxHeaderSize: int, state: ParserState, parsedData: seq<byte>)

  /** A parser as `HttpHeaderParser()` creates it. */
  function InitialParser(maxHeaderSize: int): Parser {
    Parser(maxHeaderSize, MoreDataNeeded, [])
  }

  /** The parser after one `parse` call, the caller's `extraDataBuffer` after it, and what was thrown. */
  datatype StepResult = StepResult(parser: Parser, extra: seq<byte>, error: Option<ParseError>)

  /** `HttpHeaderParser.parse(streamData:extraDataBuffer:)`. */
  function Step(p: Parser, streamData: seq<byte>, extra: seq<byte>): (r: StepResult)
    // once ready, nothing changes and nothing is thrown
    ensures p.state.Ready? ==> r == StepResult(p, extra, None)
    // the size check: the bytes held plus the whole new chunk must stay below the bound
    ensures r.error == Some(MaxSizeReached) <==>
      p.state.MoreDataNeeded? && |p.parsedData| + |streamData| >= p.maxHeaderSize
    // the check comes before anything is appended
    ensures r.error == Some(MaxSizeReached) ==> r.parser == p && r.extra == extra
    // whatever is held afterwards is either what was held before or below the bound
    ensures r.parser.parsedData == p.parsedData || |r.parser.parsedData| < p.maxHeaderSize
    ensures r.parser.maxHeaderSize == p.maxHeaderSize
    // the caller's buffer only grows
    ensures extra <= r.extra
    // the state turns ready only on a well-formed header block, and never turns back
    ensures r.parser.state.Ready? ==> p.state.Ready? || r.error.None?
    ensures p.state.MoreDataNeeded? && r.parser.state.Ready? ==>
      var acc := p.parsedData + streamData;
      IndexOf(acc, HeaderBodySeparator).Some? &&
      Parse(acc[..IndexOf(acc, HeaderBodySeparator).value]) == Ok(r.parser.state.info)
  {
    if p.state.Ready? then StepResult(p, extra, None)
    else if |p.parsedData| + |streamData| >= p.maxHeaderSize then StepResult(p, extra, Some(MaxSizeReached))
    else
      var acc := p.parsedData + streamData;
      match IndexOf(acc, HeaderBodySeparator)
      case None => StepResult(p.(parsedData := acc), extra, None)
      case Some(i) =>
        var extra' := extra + acc[i + |HeaderBodySeparator|..];
        match Parse(acc[..i])
        case Err(e) => StepResult(p.(parsedData := acc), extra', Some(InvalidHeader(e)))
        case Ok(info) => StepResult(p.(parsedData := acc, state := Ready(info)), extra', None)
  }

  /** On the first CRLF CRLF, the header block is what precedes it and what follows goes to the caller. */
  lemma StepAtSeparator(p: Parser, streamData: seq<byte>, extra: seq<byte>)
    requires p.state.MoreDataNeeded? && |p.parsedData| + |streamData| < p.maxHeaderSize
    requires IndexOf(p.parsedData + streamData, HeaderBodySeparator).Some?
    ensures var acc := p.parsedData + streamData;
      var i := IndexOf(acc, HeaderBodySeparator).value;
      var r := Step(p, streamData, extra);
      && acc == acc[..i] + HeaderBodySeparator + acc[i + 4..]
      && r.extra == extra + acc[i + 4..]
      && r.parser.parsedData == acc
      && (Parse(acc[..i]).Ok? ==> r.parser.state == Ready(Parse(acc[..i]).value) && r.error.None?)
      && (Parse(acc[..i]).Err? ==> r.parser.state.MoreDataNeeded? && r.error == Some(InvalidHeader(Parse(acc[..i]).error)))
  {
    var acc := p.parsedData + streamData;
    var i := IndexOf(acc, HeaderBodySeparator).value;
    assert acc[i..i + 4] == HeaderBodySeparator;
    assert acc == acc[..i] + acc[i..i + 4] + acc[i + 4..];
  }

  /** Without a CRLF CRLF in what is held, the chunk is only appended. */
  lemma StepWithoutSeparator(p: Parser, streamData: seq<byte>, extra: seq<byte>)
    requires p.state.MoreDataNeeded? && |p.parsedData| + |streamData| < p.maxHeaderSize
    requires !Contains(p.parsedData + streamData, HeaderBodySeparator)
    ensures Step(p, streamData, extra) == StepResult(p.(parsedData := p.parsedData + streamData), extra, None)
  {
    IndexOfContains(p.parsedData + streamData, HeaderBodySeparator);
  }

  /** `HttpHeaderParser`: the struct's mutable fields, updated in place by `Parse`. */
  class HttpHeaderParser {
    var maxHeaderSize: int
    var state: ParserState
    var parsedData: seq<byte>

    function Model(): Parser
      reads this
    {
      Parser(maxHeaderSize, state, parsedData)
    }

    constructor ()
      ensures Model() == InitialParser(DefaultMaxHeaderSize)
    {
      maxHeaderSize := DefaultMaxHeaderSize;
      state := MoreDataNeeded;
      parsedData := [];
    }

    /** `parse(streamData:extraDataBuffer:)`; the `inout` buffer is passed in and handed back. */
    method Parse(streamData: seq<byte>, extraDataBuffer: seq<byte>) returns (extra: seq<byte>, error: Option<ParseError>)
      modifies this
      ensures StepResult(Model(), extra, error) == Step(old(Model()), streamData, extraDataBuffer)
    {
      extra := extraDataBuffer;
      error := None;
      if !state.MoreDataNeeded? {
        return;
      }
      if !(|parsedData| + |streamData| < maxHeaderSize) {
        error := Some(MaxSizeReached);
        return;
      }
      parsedData := parsedData + streamData;
      var range := IndexOf(parsedData, HeaderBodySeparator);
      if range.Some? {
        var headerData := parsedData[..range.value];
        var restOfData := parsedData[range.value + |HeaderBodySeparator|..];
        extra := extra + restOfData;
        var headerInfo := RequestHeaders.Parse(headerData);
        if headerInfo.Err? {
          error := Some(InvalidHeader(headerInfo.error));
          return;
        }
        state := Ready(headerInfo.value);
      }
    }
  }

  // ---------------------------------------------------------------------------
  // The driver, `StreamHandler.parseRequest`

  datatype RequestError<E> =
    | HeaderFailed(cause: ParseError)
    | InputFailed(inputError: E)
    | InputStreamFinishedBeforeCompleteHeader

  datatype Request = Request(headerInfo: RequestHeaderInfo, body: seq<byte>)

  /** The driver's loop state: the parser and the body so far, or the error that ended the loop. */
  datatype Drive = Running(parser: Parser, body: seq<byte>) | Stopped(error: ParseError)

  /** One iteration: route the chunk to the parser until it is ready, to the body afterwards. */
  function FeedOne(d: Drive, chunk: seq<byte>): Drive {
    match d
    case Stopped(e) => d
    case Running(p, body) =>
      if p.state.Ready? then Running(p, body + chunk)
      else
        var r := Step(p, chunk, body);
        if r.error.Some? then Stopped(r.error.value) else Running(r.parser, r.extra)
  }

  /** The loop over the chunks received so far, from a fresh parser and an empty body. */
  function Feed(maxHeaderSize: int, chunks: seq<seq<byte>>): Drive
    decreases |chunks|
  {
    if chunks == [] then Running(InitialParser(maxHeaderSize), [])
    else FeedOne(Feed(maxHeaderSize, chunks[..|chunks| - 1]), chunks[|chunks| - 1])
  }

  /** What the loop has established, without the parser's chunking-dependent buffer once ready. */
  datatype View = Pending(accumulated: seq<byte>) | Done(info: RequestHeaderInfo, body: seq<byte>) | Failed(error: ParseError)

  function ViewOf(d: Drive): View {
    match d
    case Stopped(e) => Failed(e)
    case Running(p, body) => if p.state.Ready? then Done(p.state.info, body) else Pending(p.parsedData)
  }

  /** What `parseRequest` returns or throws once the loop has produced `v` and the input ended with `end`. */
  function Outcome<E>(v: View, end: InputEnd<E>): Result<Request, RequestError<E>> {
    match v
    case Failed(e) => Err(HeaderFailed(e))
    case _ =>
      if end.FinishedThrowing? then Err(InputFailed(end.error))
      else if v.Done? then Ok(Request(v.info, v.body))
      else Err(InputStreamFinishedBeforeCompleteHeader)
  }

  /** `parseRequest` for the chunks `chunks` followed by `end`. */
  function RequestSpec<E>(maxHeaderSize: int, chunks: seq<seq<byte>>, end: InputEnd<E>): Result<Request, RequestError<E>> {
    Outcome(ViewOf(Feed(maxHeaderSize, chunks)), end)
  }

  /** A thrown error ends the loop: later chunks change nothing. */
  lemma {:induction false} FeedStoppedAbsorbs(maxHeaderSize: int, chunks: seq<seq<byte>>, k: nat)
    requires k <= |chunks| && Feed(maxHeaderSize, chunks[..k]).Stopped?
    ensures Feed(maxHeaderSize, chunks) == Feed(maxHeaderSize, chunks[..k])
    decreases |chunks| - k
  {
    if k < |chunks| {
      assert chunks[..k + 1][..k] == chunks[..k];
      FeedStoppedAbsorbs(maxHeaderSize, chunks, k + 1);
    } else {
      assert chunks[..k] == chunks;
    }
  }

  /** `StreamHandler.parseRequest`: the `for try await` loop over the inbound chunks. */
  method ParseRequest<E>(input: seq<seq<byte>>, end: InputEnd<E>) returns (r: Result<Request, RequestError<E>>)
    ensures r == RequestSpec(DefaultMaxHeaderSize, input, end)
  {
    var headerParser := new HttpHeaderParser();
    var bodyData: seq<byte> := [];
    for i := 0 to |input|
      invariant Feed(DefaultMaxHeaderSize, input[..i]) == Running(headerParser.Model(), bodyData)
    {
      var data := input[i];
      assert input[..i + 1][..i] == input[..i];
      if !headerParser.state.Ready? {
        var extra, error := headerParser.Parse(data, bodyData);
        bodyData := extra;
        if error.Some? {
          FeedStoppedAbsorbs(DefaultMaxHeaderSize, input, i + 1);
          return Err(HeaderFailed(error.value));
        }
      } else {
        bodyData := bodyData + data;
      }
    }
    assert input[..|input|] == input;
    if end.FinishedThrowing? {
      return Err(InputFailed(end.error));
    }
    if !headerParser.state.Ready? {
      return Err(InputStreamFinishedBeforeCompleteHeader);
    }
    return Ok(Request(headerParser.state.info, bodyData));
  }

  // ---------------------------------------------------------------------------
  // Chunking does not matter below the bound

  /** What the loop establishes when all of `total` arrives and stays below the bound. */
  function WholeView(total: seq<byte>): View {
    match IndexOf(total, HeaderBodySeparator)
    case None => Pending(total)
    case Some(i) =>
      match Parse(total[..i])
      case Ok(info) => Done(info, total[i + |HeaderBodySeparator|..])
      case Err(e) => Failed(InvalidHeader(e))
  }

  /** The loop invariant of `FeedView`, for a drive `d` that has consumed the bytes `t`. */
  predicate ViewInvariant(maxHeaderSize: int, d: Drive, t: seq<byte>) {
    && ViewOf(d) == WholeView(t)
    && (d.Running? ==>
      d.parser.maxHeaderSize == maxHeaderSize &&
      (d.parser.state.MoreDataNeeded? ==> d.body == []))
  }

  /** One more chunk below the bound keeps the invariant, with the chunk's bytes appended. */
  lemma FeedOneView(maxHeaderSize: int, d: Drive, t: seq<byte>, c: seq<byte>)
    requires |t + c| < maxHeaderSize
    requires ViewInvariant(maxHeaderSize, d, t)
    ensures ViewInvariant(maxHeaderSize, FeedOne(d, c), t + c)
  {
    match IndexOf(t, HeaderBodySeparator)
    case None =>
      assert d == Running(d.parser, []) && d.parser.state.MoreDataNeeded? && d.parser.parsedData == t;
      if IndexOf(t + c, HeaderBodySeparator).Some? {
        StepAtSeparator(d.parser, c, []);
      } else {
        IndexOfContains(t + c, HeaderBodySeparator);
        StepWithoutSeparator(d.parser, c, []);
      }
    case Some(i) =>
      IndexOfExtend(t, HeaderBodySeparator, c);
      assert (t + c)[..i] == t[..i];
      assert (t + c)[i + 4..] == t[i + 4..] + c;
  }

  /**
   * Below the bound, the loop's view depends only on the bytes received, not on how
   * they were cut into chunks; meanwhile the body stays empty until the parser is ready.
   */
  lemma {:induction false} FeedView(maxHeaderSize: int, chunks: seq<seq<byte>>)
    requires |Flatten(chunks)| < maxHeaderSize
    ensures ViewOf(Feed(maxHeaderSize, chunks)) == WholeView(Flatten(chunks))
    ensures Feed(maxHeaderSize, chunks).Running? ==>
      Feed(maxHeaderSize, chunks).parser.maxHeaderSize == maxHeaderSize &&
      (Feed(maxHeaderSize, chunks).parser.state.MoreDataNeeded? ==> Feed(maxHeaderSize, chunks).body == [])
    decreases |chunks|
  {
    if chunks != [] {
      var n := |chunks| - 1;
      var init, c := chunks[..n], chunks[n];
      assert chunks == init + [c];
      FlattenAppend(init, c);
      FeedView(maxHeaderSize, init);
      FeedOneView(maxHeaderSize, Feed(maxHeaderSize, init), Flatten(init), c);
    }
  }

  /** Two chunkings of the same bytes below the bound give the same request or the same error. */
  lemma SplitInvariance<E>(maxHeaderSize: int, a: seq<seq<byte>>, b: seq<seq<byte>>, end: InputEnd<E>)
    requires Flatten(a) == Flatten(b) && |Flatten(a)| < maxHeaderSize
    ensures RequestSpec(maxHeaderSize, a, end) == RequestSpec(maxHeaderSize, b, end)
  {
    FeedView(maxHeaderSize, a);
    FeedView(maxHeaderSize, b);
  }

  /** A completed view consists of a well-formed header block, CRLF CRLF and the body. */
  lemma WholeViewDone(total: seq<byte>)
    requires WholeView(total).Done?
    ensures IndexOf(total, HeaderBodySeparator).Some?
    ensures var i := IndexOf(total, HeaderBodySeparator).value;
      && total == total[..i] + HeaderBodySeparator + WholeView(total).body
      && Parse(total[..i]) == Ok(WholeView(total).info)
  {
    var i := IndexOf(total, HeaderBodySeparator).value;
    assert total[i..i + 4] == HeaderBodySeparator;
    assert total == total[..i] + total[i..i + 4] + total[i + 4..];
  }

  /**
   * Below the bound, `parseRequest` returns the header parsed from the bytes before the
   * first CRLF CRLF and, as the body, everything after it, in arrival order.
   */
  lemma RequestOfWholeInput<E>(maxHeaderSize: int, chunks: seq<seq<byte>>, end: InputEnd<E>)
    requires |Flatten(chunks)| < maxHeaderSize
    ensures var total := Flatten(chunks);
      RequestSpec(maxHeaderSize, chunks, end) == Outcome(WholeView(total), end)
    ensures var total := Flatten(chunks);
      RequestSpec(maxHeaderSize, chunks, end).Ok? ==>
        exists i :: 0 <= i && i + 4 <= |total| && IndexOf(total, HeaderBodySeparator) == Some(i)
          && total == total[..i] + HeaderBodySeparator + RequestSpec(maxHeaderSize, chunks, end).value.body
          && Parse(total[..i]) == Ok(RequestSpec(maxHeaderSize, chunks, end).value.headerInfo)
  {
    FeedView(maxHeaderSize, chunks);
    var total := Flatten(chunks);
    var v := WholeView(total);
    if v.Done? {
      WholeViewDone(total);
      var i := IndexOf(total, HeaderBodySeparator).value;
      assert 0 <= i && i + 4 <= |total|;
    }
  }

  /** A parser fed any chunks never holds as many bytes as its bound (so at most 8191 by default). */
  lemma {:induction false} FeedBounded(maxHeaderSize: int, chunks: seq<seq<byte>>)
    requires maxHeaderSize > 0
    ensures Feed(maxHeaderSize, chunks).Running? ==>
      Feed(maxHeaderSize, chunks).parser.maxHeaderSize == maxHeaderSize &&
      |Feed(maxHeaderSize, chunks).parser.parsedData| < maxHeaderSize
    decreases |chunks|
  {
    if chunks != [] {
      FeedBounded(maxHeaderSize, chunks[..|chunks| - 1]);
    }
  }

  /** Input with no CRLF CRLF that reaches the bound fails with `maxSizeReached`, however it is cut. */
  lemma {:induction false} OversizeFails(maxHeaderSize: int, chunks: seq<seq<byte>>)
    requires maxHeaderSize > 0
    requires !Contains(Flatten(chunks), HeaderBodySeparator) && |Flatten(chunks)| >= maxHeaderSize
    ensures Feed(maxHeaderSize, chunks) == Stopped(MaxSizeReached)
    decreases |chunks|
  {
    var n := |chunks| - 1;
    var init, c := chunks[..n], chunks[n];
    assert chunks == init + [c];
    FlattenAppend(init, c);
    var t := Flatten(init);
    if Contains(t, HeaderBodySeparator) {
      var j :| OccursAt(t, HeaderBodySeparator, j);
      assert (t + c)[j..j + 4] == t[j..j + 4];
      assert OccursAt(t + c, HeaderBodySeparator, j);
    }
    if |t| >= maxHeaderSize {
      OversizeFails(maxHeaderSize, init);
    } else {
      FeedView(maxHeaderSize, init);
      IndexOfContains(t, HeaderBodySeparator);
    }
  }

  /** Body bytes sent with the header in one chunk count towards the bound. */
  lemma BodyCountsTowardsBound(head: seq<byte>, body: seq<byte>)
    requires |head| + 4 + |body| >= DefaultMaxHeaderSize
    ensures Step(InitialParser(DefaultMaxHeaderSize), head + HeaderBodySeparator + body, []).error == Some(MaxSizeReached)
  {
  }
}
