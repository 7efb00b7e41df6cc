/** Which logs the interpreter survives, and why responses cannot disturb it. */
module SessionSafety {
  import opened Options
  import opened Tlv
  import opened CardData
  import opened CardReadable
  import opened Session
  import opened SessionHistory

  // ---------- Exactly the logs without an exception ----------

  /** The command can follow the log; only the log and the bytes are mentioned. */
  ghost predicate CommandFits(utf8: Utf8, log: seq<Line>, bytes: seq<Byte>) {
    |bytes| >= 4 &&
    match CommandOf(bytes[1])
    case Select => |bytes| >= 5 && (bytes[2] == 0x00 ==> |bytes| >= 7)
    case Verify => |bytes| >= 5 && (PinOf(bytes) == [] || utf8(PinOf(bytes)))
    case GetData =>
      |bytes| >= 5 && SelectedAid(log).Some? && LongEnough(KindOf(SelectedAid(log).value), bytes)
    case Mse => SelectedAid(log).Some?
    case Pso => SelectedAid(log).Some?
    case GetResponse => true
    case Other(_) => true
  }

  /** The tag last asked for, if the application selected now was asked for one. */
  ghost function AskedFor(log: seq<Line>): Option<seq<Byte>>
    requires SelectedAid(log).Some?
  {
    match Remembered(log, SelectedAid(log).value)
    case Some(DataTag(tag)) => Some(tag)
    case _ => None
  }

  /** The response can follow the log. */
  ghost predicate ResponseFits(utf8: Utf8, log: seq<Line>, bytes: seq<Byte>) {
    |bytes| != 1 && (|bytes| > 2 && LastCommand(log).Some? ==>
      var body := bytes[..|bytes| - 2];
      match LastCommand(log).value
      case Select =>
        && SelectedAid(log).Some? && LastSelectType(log).Some?
        && SelectBodyFits(utf8, KindOf(SelectedAid(log).value), LastSelectType(log).value, body)
      case GetData =>
        && SelectedAid(log).Some?
        && (KindOf(SelectedAid(log).value).Piv? ==> PivDataFits(utf8, AskedFor(log), body))
      case Verify =>
        && SelectedAid(log).Some?
        && (KindOf(SelectedAid(log).value).Piv? || KindOf(SelectedAid(log).value).Dummy?)
      case Mse => SelectedAid(log).Some?
      case Pso => SelectedAid(log).Some?
      case GetResponse => SelectedAid(log).Some?
      case Other(_) => true)
  }

  ghost predicate SelectBodyFits(utf8: Utf8, kind: Kind, selectT: SelectType, body: seq<Byte>) {
    match kind
    case Piv => PivSelectFits(utf8, selectT, body)
    case Gids => (selectT == FCP ==> FcpFits(body)) && (selectT == FCI ==> FciFits(body))
    case _ => true
  }

  ghost predicate LineFits(utf8: Utf8, log: seq<Line>, l: Line) {
    match l
    case Sent(bytes) => CommandFits(utf8, log, bytes)
    case Received(bytes) => ResponseFits(utf8, log, bytes)
    case Skipped => true
  }

  /** Selecting an application also sets the length variable. */
  lemma SelectedHasLength(log: seq<Line>)
    requires SelectedAid(log).Some?
    ensures LastLength(log).Some?
  {
    var k := Latest(log, SelectsAid).value;
    assert SetsLength.Holds(log[k]);
  }

  lemma CommandFitsIff(utf8: Utf8, log: seq<Line>, bytes: seq<Byte>)
    ensures Send(utf8, ReadOff(log), bytes).Ok? <==> CommandFits(utf8, log, bytes)
  {
    if SelectedAid(log).Some? {
      SelectedHasLength(log);
    }
  }

  lemma SelectBodyFitsIff(utf8: Utf8, app: App, selectT: SelectType, status: int, body: seq<Byte>)
    requires body != []
    ensures SelectResult(utf8, app, selectT, status, body).Ok? <==> SelectBodyFits(utf8, app.Kind(), selectT, body)
  {
    PivSelectReadable(utf8, selectT, body);
    GidsFcpReadable(body);
    GidsFciReadable(body);
  }

  lemma DataBodyFitsIff(utf8: Utf8, app: App, status: int, body: seq<Byte>)
    ensures GetDataResult(utf8, app, status, body).Ok? <==> (app.Kind().Piv? ==> PivDataFits(utf8, LastGet(app), body))
  {
    PivDataReadable(utf8, LastGet(app), body);
  }

  lemma SelectResponseFits(utf8: Utf8, log: seq<Line>, bytes: seq<Byte>)
    requires |bytes| > 2 && LastCommand(log) == Some(Select)
    ensures Receive(utf8, ReadOff(log), bytes).Ok? <==> ResponseFits(utf8, log, bytes)
  {
    if SelectedAid(log).Some? && LastSelectType(log).Some? {
      var n := |bytes|;
      SelectBodyFitsIff(utf8, ReadOff(log).app.value, LastSelectType(log).value,
                        bytes[n - 1] as int + bytes[n - 2] as int * 256, bytes[..n - 2]);
    }
  }

  lemma DataResponseFits(utf8: Utf8, log: seq<Line>, bytes: seq<Byte>)
    requires |bytes| > 2 && LastCommand(log) == Some(GetData)
    ensures Receive(utf8, ReadOff(log), bytes).Ok? <==> ResponseFits(utf8, log, bytes)
  {
    if SelectedAid(log).Some? {
      var n, app := |bytes|, ReadOff(log).app.value;
      assert LastGet(app) == AskedFor(log);
      DataBodyFitsIff(utf8, app, bytes[n - 1] as int + bytes[n - 2] as int * 256, bytes[..n - 2]);
    }
  }

  lemma ResponseFitsIff(utf8: Utf8, log: seq<Line>, bytes: seq<Byte>)
    ensures Receive(utf8, ReadOff(log), bytes).Ok? <==> ResponseFits(utf8, log, bytes)
  {
    if |bytes| > 2 && LastCommand(log) == Some(Select) {
      SelectResponseFits(utf8, log, bytes);
    } else if |bytes| > 2 && LastCommand(log) == Some(GetData) {
      DataResponseFits(utf8, log, bytes);
    }
  }

  lemma {:induction false} LineFitsIff(utf8: Utf8, log: seq<Line>, l: Line)
    ensures Step(utf8, ReadOff(log), l).Ok? <==> LineFits(utf8, log, l)
  {
    match l {
      case Sent(bytes) => CommandFitsIff(utf8, log, bytes);
      case Received(bytes) => ResponseFitsIff(utf8, log, bytes);
      case Skipped =>
    }
  }

  /** Every line can follow the lines before it. */
  ghost predicate EveryLineFits(utf8: Utf8, log: seq<Line>) {
    forall i :: 0 <= i < |log| ==> LineFits(utf8, log[..i], log[i])
  }

  lemma EveryLineFitsSnoc(utf8: Utf8, log: seq<Line>, l: Line)
    ensures EveryLineFits(utf8, log + [l]) <==> EveryLineFits(utf8, log) && LineFits(utf8, log, l)
  {
    var all := log + [l];
    assert all[..|log|] == log && all[|log|] == l;
    forall i | 0 <= i < |log| ensures LineFits(utf8, all[..i], all[i]) <==> LineFits(utf8, log[..i], log[i]) {
      assert all[..i] == log[..i] && all[i] == log[i];
    }
    if EveryLineFits(utf8, all) {
      assert LineFits(utf8, all[..|log|], all[|log|]);
      forall i | 0 <= i < |log| ensures LineFits(utf8, log[..i], log[i]) {
        assert LineFits(utf8, all[..i], all[i]);
      }
    }
  }

  /** The program survives a log exactly when every line fits the lines before it. */
  lemma {:induction false} SurvivesIff(utf8: Utf8, log: seq<Line>)
    ensures Run(utf8, log).Ok? <==> EveryLineFits(utf8, log)
    decreases |log|
  {
    if |log| == 0 {
    } else {
      var before, l := log[..|log| - 1], log[|log| - 1];
      assert log == before + [l];
      SurvivesIff(utf8, before);
      EveryLineFitsSnoc(utf8, before, l);
      RunSnoc(utf8, before, l);
      if Run(utf8, before).Ok? {
        RunReadsOff(utf8, before);
        LineFitsIff(utf8, before, l);
      }
    }
  }

  // ---------- Undefined state ----------

  /** An exception from state that was never set. */
  predicate Undefined(e: Error) { e.NoApplication? || e.NoSelectType? || e.NoLength? }

  /** Reading a body never touches the session state. */
  lemma {:induction false} BodiesAreDefined(loop: Loop, es: seq<Element>)
    ensures Collect(loop, es).Err? ==> !Undefined(Collect(loop, es).error)
    decreases |es|
  {
    if es == [] {
    } else {
      BodiesAreDefined(loop, es[1..]);
    }
  }

  lemma SelectResultIsDefined(utf8: Utf8, app: App, selectT: SelectType, status: int, body: seq<Byte>)
    ensures SelectResult(utf8, app, selectT, status, body).Err? ==>
      !Undefined(SelectResult(utf8, app, selectT, status, body).error)
  {
    var es := if |body| >= 2 then Walk(Payload(body)) else [];
    BodiesAreDefined(PivSelectLoop(utf8, selectT), es);
    BodiesAreDefined(GidsFcpLoop, es);
    BodiesAreDefined(GidsFciLoop, es);
  }

  lemma GetDataResultIsDefined(utf8: Utf8, app: App, status: int, body: seq<Byte>)
    ensures GetDataResult(utf8, app, status, body).Err? ==>
      !Undefined(GetDataResult(utf8, app, status, body).error)
  {
    var es := if |body| >= 2 then Walk(Payload(body)) else [];
    BodiesAreDefined(PivDataLoop(utf8, LastGet(app)), es);
  }

  /** The line reads an application, select type or length that no line before it has set. */
  ghost predicate ReadsUnset(log: seq<Line>, l: Line) {
    match l
    case Sent(bytes) =>
      |bytes| >= 4 && SelectedAid(log).None? &&
      (match CommandOf(bytes[1])
       case GetData => |bytes| >= 5
       case Mse => true
       case Pso => true
       case _ => false)
    case Received(bytes) =>
      |bytes| > 2 && LastCommand(log).Some? &&
      (match LastCommand(log).value
       case Select => SelectedAid(log).None? || LastSelectType(log).None?
       case Other(_) => false
       case _ => SelectedAid(log).None?)
    case Skipped => false
  }

  lemma CommandUndefinedIff(utf8: Utf8, log: seq<Line>, bytes: seq<Byte>)
    ensures (Send(utf8, ReadOff(log), bytes).Err? && Undefined(Send(utf8, ReadOff(log), bytes).error))
       <==> ReadsUnset(log, Sent(bytes))
  {
    if SelectedAid(log).Some? {
      SelectedHasLength(log);
    }
  }

  lemma ResponseUndefinedIff(utf8: Utf8, log: seq<Line>, bytes: seq<Byte>)
    ensures (Receive(utf8, ReadOff(log), bytes).Err? && Undefined(Receive(utf8, ReadOff(log), bytes).error))
       <==> ReadsUnset(log, Received(bytes))
  {
    var s := ReadOff(log);
    if |bytes| > 2 && s.app.Some? {
      var n := |bytes|;
      var status := bytes[n - 1] as int + bytes[n - 2] as int * 256;
      GetDataResultIsDefined(utf8, s.app.value, status, bytes[..n - 2]);
      if s.lastSelectT.Some? {
        SelectResultIsDefined(utf8, s.app.value, s.lastSelectT.value, status, bytes[..n - 2]);
      }
    }
  }

  lemma StepUndefinedIff(utf8: Utf8, log: seq<Line>, l: Line)
    ensures (Step(utf8, ReadOff(log), l).Err? && Undefined(Step(utf8, ReadOff(log), l).error))
       <==> ReadsUnset(log, l)
  {
    match l {
      case Sent(bytes) => CommandUndefinedIff(utf8, log, bytes);
      case Received(bytes) => ResponseUndefinedIff(utf8, log, bytes);
      case Skipped =>
    }
  }

  /** Line i is reached without an exception and reads what was never set. */
  ghost predicate UnsetAt(utf8: Utf8, log: seq<Line>, i: nat) {
    i < |log| && EveryLineFits(utf8, log[..i]) && ReadsUnset(log[..i], log[i])
  }

  lemma UnsetAtSnoc(utf8: Utf8, log: seq<Line>, l: Line, i: nat)
    ensures i < |log| ==> (UnsetAt(utf8, log + [l], i) <==> UnsetAt(utf8, log, i))
    ensures UnsetAt(utf8, log + [l], |log|) <==> EveryLineFits(utf8, log) && ReadsUnset(log, l)
  {
    assert (log + [l])[..|log|] == log;
    assert i < |log| ==> (log + [l])[..i] == log[..i];
  }

  /** The run ends on state that was never set. */
  predicate EndsUndefined(utf8: Utf8, log: seq<Line>) {
    Run(utf8, log).Err? && Undefined(Run(utf8, log).error)
  }

  /** A log makes the program read state that was never set exactly when one of its lines, reached
      without an exception, does: a GET DATA, MSE or PSO with no application selected, a response
      with a body to a dispatched command with none selected, or to a SELECT without a known type. */
  lemma {:induction false} EndsUndefinedIff(utf8: Utf8, log: seq<Line>)
    ensures EndsUndefined(utf8, log) <==> exists i :: UnsetAt(utf8, log, i)
    decreases |log|
  {
    if |log| == 0 {
    } else {
      var before, l := log[..|log| - 1], log[|log| - 1];
      assert log == before + [l];
      EndsUndefinedIff(utf8, before);
      SurvivesIff(utf8, before);
      RunSnoc(utf8, before, l);
      if Run(utf8, before).Ok? {
        RunReadsOff(utf8, before);
        StepUndefinedIff(utf8, before, l);
        UnsetAtSnoc(utf8, before, l, 0);
        if i :| UnsetAt(utf8, log, i) {
          UnsetAtSnoc(utf8, before, l, i);
        }
      } else {
        forall i | 0 <= i < |before| ensures UnsetAt(utf8, log, i) <==> UnsetAt(utf8, before, i) {
          UnsetAtSnoc(utf8, before, l, i);
        }
        UnsetAtSnoc(utf8, before, l, 0);
      }
    }
  }

  const NO_APPLICATION: seq<Line> := [Sent([0x00, 0xca, 0x00, 0x00, 0x00])]

  /** A log that asks for data before any application is selected. */
  lemma NoApplicationExample(utf8: Utf8)
    ensures Run(utf8, NO_APPLICATION) == Err(NoApplication)
  {
    assert NO_APPLICATION[..0] == [];
    RunSnoc(utf8, [], NO_APPLICATION[0]);
    assert NO_APPLICATION == [] + [NO_APPLICATION[0]];
  }

  /** The first command of the log is line k, a SELECT by AID with a known type. */
  ghost predicate StartsWithSelect(log: seq<Line>, k: nat) {
    && k < |log| && SelectsType.Holds(log[k])
    && forall i :: 0 <= i < k ==> !log[i].Sent?
  }

  lemma SetFromTheStart(utf8: Utf8, log: seq<Line>, k: nat, i: nat)
    requires StartsWithSelect(log, k) && i < |log|
    ensures !ReadsUnset(log[..i], log[i])
  {
    if i <= k {
      assert forall j :: 0 <= j < i ==> !AnyCommand.Holds(log[..i][j]);
      assert LastCommand(log[..i]).None?;
    } else {
      assert SelectsType.Holds(log[..i][k]) && SelectsAid.Holds(log[..i][k]);
    }
  }

  /** So if the first command selects an application with a known type, it never happens. */
  lemma NeverUndefined(utf8: Utf8, log: seq<Line>, k: nat)
    requires StartsWithSelect(log, k)
    ensures !EndsUndefined(utf8, log)
  {
    EndsUndefinedIff(utf8, log);
    forall i | 0 <= i < |log| ensures !UnsetAt(utf8, log, i) {
      SetFromTheStart(utf8, log, k, i);
    }
  }

  // ---------- Responses do not interfere ----------

  /** The commands of a log. */
  function Commands(log: seq<Line>): seq<Line>
    decreases |log|
  {
    if log == [] then []
    else
      var n := |log| - 1;
      if log[n].Sent? then Commands(log[..n]) + [log[n]] else Commands(log[..n])
  }

  /** Every response fits the commands before it. */
  ghost predicate ResponsesFit(utf8: Utf8, log: seq<Line>) {
    forall i :: 0 <= i < |log| ==> ResponseFitsAt(utf8, log, i)
  }

  ghost predicate ResponseFitsAt(utf8: Utf8, log: seq<Line>, i: nat)
    requires i < |log|
  {
    log[i].Received? ==> ResponseFits(utf8, Commands(log[..i]), log[i].bytes)
  }

  lemma ResponsesFitSnoc(utf8: Utf8, log: seq<Line>, l: Line)
    ensures ResponsesFit(utf8, log + [l]) <==>
      ResponsesFit(utf8, log) && (l.Received? ==> ResponseFits(utf8, Commands(log), l.bytes))
  {
    var all := log + [l];
    assert all[..|log|] == log && all[|log|] == l;
    forall i | 0 <= i < |log| ensures ResponseFitsAt(utf8, all, i) <==> ResponseFitsAt(utf8, log, i) {
      assert all[..i] == log[..i] && all[i] == log[i];
    }
    if ResponsesFit(utf8, all) {
      assert ResponseFitsAt(utf8, all, |log|);
      forall i | 0 <= i < |log| ensures ResponseFitsAt(utf8, log, i) { assert ResponseFitsAt(utf8, all, i); }
    }
  }

  /** A log is survived exactly when its commands alone are and every response fits the commands
      before it; and then leaving out the responses and the skipped lines leaves the state as it is. */
  lemma {:induction false} CommandsDecide(utf8: Utf8, log: seq<Line>)
    ensures Run(utf8, log).Ok? <==> Run(utf8, Commands(log)).Ok? && ResponsesFit(utf8, log)
    ensures Run(utf8, log).Ok? ==> Run(utf8, Commands(log)) == Run(utf8, log)
    decreases |log|
  {
    if |log| == 0 {
    } else {
      var before, l := log[..|log| - 1], log[|log| - 1];
      assert log == before + [l];
      var cs := Commands(before);
      CommandsDecide(utf8, before);
      ResponsesFitSnoc(utf8, before, l);
      RunSnoc(utf8, before, l);
      RunSnoc(utf8, cs, l);
      if Run(utf8, cs).Ok? {
        RunReadsOff(utf8, cs);
        LineFitsIff(utf8, cs, l);
      }
    }
  }

  /** So a response is read the same after any two logs with the same commands, whatever other
      responses they hold. */
  lemma {:induction false} ReadingDependsOnCommands(utf8: Utf8, x: seq<Line>, y: seq<Line>, bytes: seq<Byte>)
    requires Run(utf8, x).Ok? && Run(utf8, y).Ok? && Commands(x) == Commands(y)
    ensures Receive(utf8, Run(utf8, x).value, bytes) == Receive(utf8, Run(utf8, y).value, bytes)
    ensures Receive(utf8, Run(utf8, x).value, bytes) == Receive(utf8, ReadOff(Commands(x)), bytes)
  {
    CommandsDecide(utf8, x);
    CommandsDecide(utf8, y);
    RunReadsOff(utf8, Commands(x));
  }
}
