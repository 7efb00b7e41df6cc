/**
 What a response prints, or which exception it raises, in terms of its bytes and of the state
 before it; `CardLines` says what the lines of a card's data objects are.
 */
module SessionOutput {
  import opened Options
  import opened Tlv
  import opened CardData
  import opened CardReadable
  import opened CardLines
  import opened Session
  import opened SessionHistory
  import opened CommandBytes

  // ---------- The body ----------

  /** The loop that reads the body, and the tag and heading it stands under if it needs one. */
  datatype BodyReader =
    | AsIs        // the body is printed
    | Nothing     // nothing is printed
    | Whole(loop: Loop)
    | Under(tag: Byte, heading: string, loop: Loop)

  function TagOf(memory: Option<Memory>): Option<seq<Byte>> {
    if memory.Some? && memory.value.DataTag? then Some(memory.value.tag) else None
  }

  /** How an application reads the response to SELECT or GET DATA. */
  function ReaderOf(utf8: Utf8, cmd: Command, selectT: Option<SelectType>, app: App): BodyReader {
    if cmd == GetData && IsPiv(app.aid) then Whole(PivDataLoop(utf8, TagOf(app.memory)))
    else if cmd == GetData && IsGids(app.aid) then Nothing
    else if cmd == Select && IsPiv(app.aid) && selectT.Some? then Whole(PivSelectLoop(utf8, selectT.value))
    else if cmd == Select && IsGids(app.aid) && selectT == Some(FCP) then Under(0x62, "FCP", GidsFcpLoop)
    else if cmd == Select && IsGids(app.aid) && selectT == Some(FCI) then Under(0x61, "FCI", GidsFciLoop)
    else AsIs
  }

  /** The elements of a body, of which the first two bytes are a header. */
  function ElementsOf(body: seq<Byte>): seq<Element> {
    if |body| < 2 then [] else Walk(Payload(body))
  }

  /** The output for a body read by an application. */
  ghost predicate BodyPrints(r: BodyReader, body: seq<Byte>, status: int, o: Output) {
    match r
    case AsIs => o == Raw(status, body)
    case Nothing => o == Lines(status, [])
    case Whole(loop) =>
      |body| >= 2 && AllFit(loop, ElementsOf(body)) && o == Lines(status, LinesOf(loop, ElementsOf(body)))
    case Under(tag, heading, loop) =>
      && |body| >= 2 && (body[0] == tag ==> AllFit(loop, ElementsOf(body)))
      && o == Lines(status, if body[0] == tag then [Heading(heading)] + LinesOf(loop, ElementsOf(body)) else [])
  }

  /** The exception of the first element that does not fit. */
  ghost predicate LoopFails(loop: Loop, es: seq<Element>, e: Error) {
    exists k :: 0 <= k < |es| && StopsAt(loop, es, k) && e == ErrorOf(loop, es[k])
  }

  /** The exception a body raises: that of an element, or of a header that is not there. */
  ghost predicate BodyFails(r: BodyReader, body: seq<Byte>, e: Error) {
    && (r.Whole? || r.Under?)
    && (|body| < 2 ==> e == IndexError)
    && (|body| >= 2 ==> (r.Under? ==> body[0] == r.tag) && LoopFails(r.loop, ElementsOf(body), e))
  }

  /** The result is what the reader prints, or the exception it raises. */
  ghost predicate ResultOf(r: BodyReader, body: seq<Byte>, status: int, result: Result<Output, Error>) {
    match result
    case Ok(o) => BodyPrints(r, body, status, o)
    case Err(e) => BodyFails(r, body, e)
  }

  // ---------- The response ----------

  /** The output for a body and a status, in state s. */
  ghost predicate Shows(utf8: Utf8, s: State, body: seq<Byte>, status: int, o: Output) {
    if body == [] || s.lastCmd.None? || s.lastCmd.value.Other? then o == Status(status)
    else s.app.Some? && BodyPrints(ReaderOf(utf8, s.lastCmd.value, s.lastSelectT, s.app.value), body, status, o)
  }

  /** The exception a body raises in state s. */
  ghost predicate Raises(utf8: Utf8, s: State, body: seq<Byte>, e: Error) {
    && body != [] && s.lastCmd.Some? && !s.lastCmd.value.Other?
    && if s.app.None? then e == NoApplication
       else if s.lastCmd == Some(Select) && s.lastSelectT.None? then e == NoSelectType
       else if s.lastCmd == Some(Verify) then e == NoMethod && (IsGids(s.app.value.aid) || IsGpc(s.app.value.aid))
       else BodyFails(ReaderOf(utf8, s.lastCmd.value, s.lastSelectT, s.app.value), body, e)
  }

  lemma LoopReads(loop: Loop, es: seq<Element>)
    ensures Collect(loop, es).Ok? ==> AllFit(loop, es) && Collect(loop, es).value == LinesOf(loop, es)
    ensures Collect(loop, es).Err? ==> LoopFails(loop, es, Collect(loop, es).error)
  {
    CollectIsLines(loop, es);
    if !AllFit(loop, es) {
      var k := CollectStops(loop, es);
    }
  }

  lemma PivShows(utf8: Utf8, selectT: SelectType, app: App, status: int, body: seq<Byte>)
    requires body != [] && IsPiv(app.aid)
    ensures ResultOf(ReaderOf(utf8, Select, Some(selectT), app), body, status,
                     SelectResult(utf8, app, selectT, status, body))
  {
    Kinds(app.aid);
    LoopReads(PivSelectLoop(utf8, selectT), ElementsOf(body));
  }

  lemma PivDataShows(utf8: Utf8, selectT: Option<SelectType>, app: App, status: int, body: seq<Byte>)
    requires body != [] && IsPiv(app.aid)
    ensures ResultOf(ReaderOf(utf8, GetData, selectT, app), body, status, GetDataResult(utf8, app, status, body))
  {
    Kinds(app.aid);
    LoopReads(PivDataLoop(utf8, TagOf(app.memory)), ElementsOf(body));
  }

  lemma GidsShows(utf8: Utf8, selectT: SelectType, app: App, status: int, body: seq<Byte>)
    requires body != [] && IsGids(app.aid)
    ensures ResultOf(ReaderOf(utf8, Select, Some(selectT), app), body, status,
                     SelectResult(utf8, app, selectT, status, body))
  {
    Kinds(app.aid);
    LoopReads(GidsFcpLoop, ElementsOf(body));
    LoopReads(GidsFciLoop, ElementsOf(body));
  }

  lemma OthersShow(utf8: Utf8, selectT: SelectType, app: App, status: int, body: seq<Byte>)
    requires !IsPiv(app.aid)
    ensures GetDataResult(utf8, app, status, body) ==
      Ok(if IsGids(app.aid) then Lines(status, []) else Raw(status, body))
    ensures !IsGids(app.aid) ==> SelectResult(utf8, app, selectT, status, body) == Ok(Raw(status, body))
  {
    Kinds(app.aid);
  }

  lemma SelectShows(utf8: Utf8, selectT: SelectType, app: App, status: int, body: seq<Byte>)
    requires body != []
    ensures ResultOf(ReaderOf(utf8, Select, Some(selectT), app), body, status,
                     SelectResult(utf8, app, selectT, status, body))
  {
    if IsPiv(app.aid) {
      PivShows(utf8, selectT, app, status, body);
    } else if IsGids(app.aid) {
      GidsShows(utf8, selectT, app, status, body);
    } else {
      OthersShow(utf8, selectT, app, status, body);
    }
  }

  lemma DataShows(utf8: Utf8, selectT: Option<SelectType>, app: App, status: int, body: seq<Byte>)
    requires body != []
    ensures ResultOf(ReaderOf(utf8, GetData, selectT, app), body, status, GetDataResult(utf8, app, status, body))
  {
    if IsPiv(app.aid) {
      PivDataShows(utf8, selectT, app, status, body);
    } else {
      OthersShow(utf8, FCI, app, status, body);
    }
  }

  /** The answer is what a state prints for a body, or the exception it raises. */
  ghost predicate Answers(utf8: Utf8, s: State, body: seq<Byte>, status: int, result: Result<Output, Error>) {
    match result
    case Ok(o) => Shows(utf8, s, body, status, o)
    case Err(e) => Raises(utf8, s, body, e)
  }

  lemma SelectAnswers(utf8: Utf8, s: State, status: int, body: seq<Byte>)
    requires body != [] && s.lastCmd == Some(Select)
    ensures Answers(utf8, s, body, status, Answer(utf8, s, status, body))
  {
    if s.app.Some? && s.lastSelectT.Some? {
      SelectShows(utf8, s.lastSelectT.value, s.app.value, status, body);
    }
  }

  lemma DataAnswers(utf8: Utf8, s: State, status: int, body: seq<Byte>)
    requires body != [] && s.lastCmd == Some(GetData)
    ensures Answers(utf8, s, body, status, Answer(utf8, s, status, body))
  {
    if s.app.Some? {
      DataShows(utf8, s.lastSelectT, s.app.value, status, body);
    }
  }

  lemma OthersAnswer(utf8: Utf8, s: State, status: int, body: seq<Byte>)
    requires body == [] || (s.lastCmd != Some(Select) && s.lastCmd != Some(GetData))
    ensures Answers(utf8, s, body, status, Answer(utf8, s, status, body))
  {
    if s.app.Some? {
      Kinds(s.app.value.aid);
    }
  }

  lemma AnyAnswers(utf8: Utf8, s: State, status: int, body: seq<Byte>)
    ensures Answers(utf8, s, body, status, Answer(utf8, s, status, body))
  {
    if body != [] && s.lastCmd == Some(Select) {
      SelectAnswers(utf8, s, status, body);
    } else if body != [] && s.lastCmd == Some(GetData) {
      DataAnswers(utf8, s, status, body);
    } else {
      OthersAnswer(utf8, s, status, body);
    }
  }

  lemma StatusAndBody(utf8: Utf8, s: State, bytes: seq<Byte>, body: seq<Byte>, sw1: Byte, sw2: Byte, status: int)
    requires bytes == body + [sw1, sw2] && status == sw1 as int * 256 + sw2 as int
    ensures Receive(utf8, s, bytes) == Answer(utf8, s, status, body)
  {
    assert bytes[..|bytes| - 2] == body;
    assert bytes[|bytes| - 2] == sw1 && bytes[|bytes| - 1] == sw2;
  }

  /** In every state a response prints its status, the high byte first, with the body as it is or as
      the application reads it, or it raises the exception that reading it raises. */
  lemma ReceiveShows(utf8: Utf8, s: State, bytes: seq<Byte>, body: seq<Byte>, sw1: Byte, sw2: Byte, status: int)
    requires bytes == body + [sw1, sw2] && status == sw1 as int * 256 + sw2 as int
    ensures Answers(utf8, s, body, status, Receive(utf8, s, bytes))
  {
    StatusAndBody(utf8, s, bytes, body, sw1, sw2, status);
    AnyAnswers(utf8, s, status, body);
  }

  // ---------- The log ----------

  /** The last two bytes are the status, the high one first; the others are the body. */
  function StatusOf(bytes: seq<Byte>): int
    requires |bytes| >= 2
  {
    bytes[|bytes| - 2] as int * 256 + bytes[|bytes| - 1] as int
  }

  function BodyOf(bytes: seq<Byte>): seq<Byte>
    requires |bytes| >= 2
  {
    bytes[..|bytes| - 2]
  }

  /** What line i prints, in the state that can be read off the lines before it. */
  ghost predicate LinePrints(utf8: Utf8, log: seq<Line>, i: nat, o: Output)
    requires i < |log|
  {
    match log[i]
    case Received(bytes) =>
      if bytes == [] then o == Silent
      else |bytes| >= 2 && Shows(utf8, ReadOff(log[..i]), BodyOf(bytes), StatusOf(bytes), o)
    case _ => o == Silent
  }

  /** The exception of a command that fails in state s. */
  function CommandError(s: State, bytes: seq<Byte>): Error {
    if |bytes| < 4 then ValueError
    else if bytes[1] in MSE || bytes[1] == 0x2a then NoApplication
    else if |bytes| == 4 then IndexError
    else if bytes[1] in VERIFY then TextError
    else if bytes[1] in GET_DATA && s.app.None? then NoApplication
    else IndexError
  }

  lemma SendFails(utf8: Utf8, s: State, bytes: seq<Byte>)
    requires s.app.Some? ==> s.lc.Some?
    ensures Send(utf8, s, bytes).Err? ==> Send(utf8, s, bytes).error == CommandError(s, bytes)
  {
  }

  /** The exception with which line i ends the program. */
  ghost predicate LineRaises(utf8: Utf8, log: seq<Line>, i: nat, e: Error)
    requires i < |log|
  {
    match log[i]
    case Received(bytes) =>
      if |bytes| == 1 then e == IndexError
      else |bytes| > 2 && Raises(utf8, ReadOff(log[..i]), BodyOf(bytes), e)
    case Sent(bytes) => e == CommandError(ReadOff(log[..i]), bytes)
    case Skipped => false
  }

  /** What a step at line i gives: what the line prints, or the exception it raises. */
  ghost predicate LineGives(utf8: Utf8, log: seq<Line>, i: nat, step: Result<(State, Output), Error>)
    requires i < |log|
  {
    match step
    case Ok((_, o)) => LinePrints(utf8, log, i, o)
    case Err(e) => LineRaises(utf8, log, i, e)
  }

  lemma SentGives(utf8: Utf8, log: seq<Line>, i: nat, s: State)
    requires i < |log| && log[i].Sent? && Run(utf8, log[..i]) == Ok(s)
    ensures LineGives(utf8, log, i, Step(utf8, s, log[i]))
  {
    RunReadsOff(utf8, log[..i]);
    if s.app.Some? { LengthIsKnown(utf8, log[..i], s); }
    SendFails(utf8, s, log[i].bytes);
  }

  lemma ReceivedGives(utf8: Utf8, log: seq<Line>, i: nat, s: State)
    requires i < |log| && log[i].Received? && s == ReadOff(log[..i])
    ensures LineGives(utf8, log, i, Step(utf8, s, log[i]))
  {
    var bytes := log[i].bytes;
    if |bytes| >= 2 {
      ReceiveShows(utf8, s, bytes, BodyOf(bytes), bytes[|bytes| - 2], bytes[|bytes| - 1], StatusOf(bytes));
    }
  }

  /** What the main loop prints for line i, or how it ends there. */
  lemma LineIsRead(utf8: Utf8, log: seq<Line>, i: nat, s: State)
    requires i < |log| && Run(utf8, log[..i]) == Ok(s)
    ensures LineGives(utf8, log, i, Step(utf8, s, log[i]))
  {
    RunReadsOff(utf8, log[..i]);
    match log[i] {
      case Received(_) => ReceivedGives(utf8, log, i, s);
      case Sent(_) => SentGives(utf8, log, i, s);
      case Skipped =>
    }
  }
}
