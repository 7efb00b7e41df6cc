/**
 The command/response machine of `tools/smartcard-interpreter.py`, as a step function on its
 state.  A log line is a command sent, a response received, or a line the program skips.
 */
module Session {
  import opened Options
  import opened Tlv
  import opened CardData

  datatype Line = Sent(bytes: seq<Byte>) | Received(bytes: seq<Byte>) | Skipped

  /** The commands the program tells apart; the others are only printed. */
  datatype Command = Select | Verify | GetData | GetResponse | Mse | Pso | Other(ins: Byte)

  function CommandOf(ins: Byte): Command {
    match ins as int
    case 0x20 => Verify
    case 0x21 => Verify
    case 0x22 => Mse
    case 0x25 => Mse
    case 0x2a => Pso
    case 0xa4 => Select
    case 0xc0 => GetResponse
    case 0xca => GetData
    case 0xcb => GetData
    case _ => Other(ins)
  }

  datatype Kind = Dummy | Gpc | Piv | Gids

  /** `createAppByAid` */
  function KindOf(aid: seq<Byte>): Kind {
    if aid == [0xa0, 0x00, 0x00, 0x03, 0x08] then Piv
    else if aid == [0xa0, 0x00, 0x00, 0x03, 0x08, 0x00, 0x00, 0x10, 0x00] then Piv
    else if aid == [0xa0, 0x00, 0x00, 0x03, 0x97, 0x42, 0x54, 0x46, 0x59] then Gids
    else if aid == [0xa0, 0x00, 0x00, 0x01, 0x51, 0x00, 0x00] then Gpc
    else Dummy
  }

  /** What an application remembers of GET DATA: a tag (`lastGet`, `lastDo`) or a file (`lastGetData`). */
  datatype Memory = DataTag(tag: seq<Byte>) | FileId(id: int)

  datatype App = App(aid: seq<Byte>, memory: Option<Memory>)
  {
    function Kind(): Kind { KindOf(aid) }
  }

  datatype State = State(
    lastCmd: Option<Command>,
    lastSelectT: Option<SelectType>,
    lc: Option<Byte>,
    app: Option<App>)

  const START := State(None, None, None, None)

  datatype Output =
    | Silent
    | Status(status: int)
    | Raw(status: int, body: seq<Byte>)
    | Lines(status: int, items: seq<Item>)

  // ---------- Commands ----------

  function SelectTypeOf(p2: Byte): Option<SelectType> {
    if p2 == 0x00 then Some(FCI)
    else if p2 == 0x04 then Some(FCP)
    else if p2 == 0x08 then Some(FMD)
    else None
  }

  /** The AID of a SELECT by AID. */
  function AidOf(bytes: seq<Byte>): seq<Byte>
    requires |bytes| >= 5
  {
    Slice(bytes, 5, 5 + bytes[4] as nat)
  }

  /** The bytes of a VERIFY that are decoded as text. */
  function PinOf(bytes: seq<Byte>): seq<Byte>
    requires |bytes| >= 5
  {
    if bytes[4] < 2 then [] else Slice(bytes, 5, 5 + bytes[4] as nat - 2)
  }

  /** What GET DATA makes an application remember; None leaves its memory as it is. */
  function Remembers(kind: Kind, bytes: seq<Byte>): Option<Memory> {
    if |bytes| < 5 then None
    else
      match kind
      case Dummy => None
      case Gpc => Some(FileId(bytes[2] as int * 256 + bytes[3] as int))
      case Piv =>
        if |bytes| >= 7 && bytes[4] == 5 && bytes[5] == 0x5c then Some(DataTag(Slice(bytes, 7, 10))) else None
      case Gids =>
        if |bytes| >= 7 && bytes[5] == 0x5c then Some(DataTag(Slice(bytes, 7, 7 + bytes[6] as nat))) else None
  }

  /** GET DATA reads no byte that is not there. */
  predicate LongEnough(kind: Kind, bytes: seq<Byte>) {
    match kind
    case Dummy => true
    case Gpc => true
    case Piv =>
      |bytes| < 7 ||
      (&& (bytes[4] == 4 ==> |bytes| >= 9)
       && (bytes[4] == 10 ==> |bytes| >= 11 && |bytes| >= 11 + bytes[8] as int))
    case Gids => |bytes| >= 7
  }

  function Send(utf8: Utf8, s: State, bytes: seq<Byte>): Result<State, Error> {
    if |bytes| < 4 then Err(ValueError)
    else
      var cmd := CommandOf(bytes[1]);
      var next := s.(lastCmd := Some(cmd));
      match cmd
      case Select =>
        if |bytes| < 5 then Err(IndexError)
        else if bytes[2] == 0x00 then
          if |bytes| < 7 then Err(IndexError) else Ok(next.(lc := Some(bytes[4])))
        else if bytes[2] == 0x04 then
          var aid := AidOf(bytes);
          Ok(next.(
            lc := Some(bytes[4]),
            lastSelectT := if SelectTypeOf(bytes[3]).Some? then SelectTypeOf(bytes[3]) else s.lastSelectT,
            app := if s.app.Some? && s.app.value.aid == aid then s.app else Some(App(aid, None))))
        else Ok(next.(lc := Some(bytes[4])))
      case Verify =>
        if |bytes| < 5 then Err(IndexError)
        else if PinOf(bytes) != [] && !utf8(PinOf(bytes)) then Err(TextError)
        else Ok(next.(lc := Some(bytes[4])))
      case GetData =>
        if |bytes| < 5 then Err(IndexError)
        else if s.app.None? then Err(NoApplication)
        else if !LongEnough(s.app.value.Kind(), bytes) then Err(IndexError)
        else
          var m := Remembers(s.app.value.Kind(), bytes);
          Ok(next.(
            lc := Some(bytes[4]),
            app := if m.Some? then Some(s.app.value.(memory := m)) else s.app))
      case GetResponse => Ok(next)
      case Mse => if s.app.None? then Err(NoApplication) else if s.lc.None? then Err(NoLength) else Ok(next)
      case Pso => if s.app.None? then Err(NoApplication) else if s.lc.None? then Err(NoLength) else Ok(next)
      case Other(_) => Ok(next)
  }

  // ---------- Responses ----------

  /** The tag a PIV application goes by when it reads a response. */
  function LastGet(app: App): Option<seq<Byte>> {
    match app.memory
    case Some(DataTag(tag)) => Some(tag)
    case _ => None
  }

  function Printed(status: int, r: Reading): Result<Output, Error> {
    match r
    case Err(e) => Err(e)
    case Ok(items) => Ok(Lines(status, items))
  }

  /** `selectResult` of the four applications. */
  function SelectResult(utf8: Utf8, app: App, selectT: SelectType, status: int, body: seq<Byte>)
    : Result<Output, Error>
  {
    match app.Kind()
    case Dummy => Ok(Raw(status, body))
    case Gpc => Ok(Raw(status, body))
    case Piv => Printed(status, PivSelect(utf8, selectT, body))
    case Gids =>
      if body == [] then Ok(Lines(status, []))
      else if selectT == FCP then Printed(status, GidsFcp(body))
      else if selectT == FCI then Printed(status, GidsFci(body))
      else Ok(Raw(status, body))
  }

  /** `getDataResult` of the four applications. */
  function GetDataResult(utf8: Utf8, app: App, status: int, body: seq<Byte>): Result<Output, Error> {
    match app.Kind()
    case Dummy => Ok(Raw(status, body))
    case Gpc => Ok(Raw(status, body))
    case Piv => Printed(status, PivData(utf8, LastGet(app), body))
    case Gids => Ok(Lines(status, []))
  }

  /** How a status with a body is read: on the command before it. */
  function Answer(utf8: Utf8, s: State, status: int, body: seq<Byte>): Result<Output, Error> {
    if body == [] || s.lastCmd.None? then Ok(Status(status))
    else
      match s.lastCmd.value
      case Select =>
        if s.app.None? then Err(NoApplication)
        else if s.lastSelectT.None? then Err(NoSelectType)
        else SelectResult(utf8, s.app.value, s.lastSelectT.value, status, body)
      case GetData =>
        if s.app.None? then Err(NoApplication) else GetDataResult(utf8, s.app.value, status, body)
      case Mse => if s.app.None? then Err(NoApplication) else Ok(Raw(status, body))
      case Pso => if s.app.None? then Err(NoApplication) else Ok(Raw(status, body))
      case GetResponse => if s.app.None? then Err(NoApplication) else Ok(Raw(status, body))
      case Verify =>
        if s.app.None? then Err(NoApplication)
        else if s.app.value.Kind().Gids? || s.app.value.Kind().Gpc? then Err(NoMethod)
        else Ok(Raw(status, body))
      case Other(_) => Ok(Status(status))
  }

  /** How a response is read; it changes no state. */
  function Receive(utf8: Utf8, s: State, bytes: seq<Byte>): Result<Output, Error> {
    if |bytes| == 0 then Ok(Silent)
    else if |bytes| == 1 then Err(IndexError)
    else
      var n := |bytes|;
      Answer(utf8, s, bytes[n - 1] as int + bytes[n - 2] as int * 256, bytes[..n - 2])
  }

  // ---------- Runs ----------

  function Step(utf8: Utf8, s: State, l: Line): Result<(State, Output), Error> {
    match l
    case Sent(bytes) =>
      (match Send(utf8, s, bytes)
       case Err(e) => Err(e)
       case Ok(s') => Ok((s', Silent)))
    case Received(bytes) =>
      (match Receive(utf8, s, bytes)
       case Err(e) => Err(e)
       case Ok(o) => Ok((s, o)))
    case Skipped => Ok((s, Silent))
  }

  /** The state after a log, or the exception that ended it. */
  function Run(utf8: Utf8, log: seq<Line>): Result<State, Error>
    decreases |log|
  {
    if log == [] then Ok(START)
    else
      var n := |log| - 1;
      match Run(utf8, log[..n])
      case Err(e) => Err(e)
      case Ok(s) =>
        match Step(utf8, s, log[n])
        case Err(e) => Err(e)
        case Ok((s', _)) => Ok(s')
  }
}
