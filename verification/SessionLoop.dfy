/** The interpreter as the program runs it: global variables and application objects updated in
    place, line by line. */
module SessionLoop {
  import opened Options
  import opened Tlv
  import opened CardData
  import opened Session
  import opened SessionHistory
  import opened SessionOutput

  /** The application objects; the class of the source is the kind of the AID. */
  class Application {
    const aid: seq<Byte>
    var memory: Option<Memory>

    constructor (aid: seq<Byte>)
      ensures this.aid == aid && memory == None
    {
      this.aid := aid;
      memory := None;
    }

    function Value(): App
      reads this
    {
      App(aid, memory)
    }

    /** `getData`: stores the tag or the file asked for, and nothing if it runs off the bytes. */
    method GetData(bytes: seq<Byte>) returns (error: Option<Error>)
      requires |bytes| >= 5
      modifies this
      ensures error == if LongEnough(KindOf(aid), bytes) then None else Some(IndexError)
      ensures error.None? ==>
        memory == if Remembers(KindOf(aid), bytes).Some? then Remembers(KindOf(aid), bytes) else old(memory)
      ensures error.Some? ==> memory == old(memory)
    {
      error := None;
      match KindOf(aid) {
        case Dummy =>
        case Gpc =>
          memory := Some(FileId(bytes[2] as int * 256 + bytes[3] as int));
        case Piv =>
          if |bytes| < 7 { return; }
          var lc, tag := bytes[4], bytes[5];
          if lc == 4 {
            if |bytes| < 9 { return Some(IndexError); }
          } else if lc == 10 {
            if |bytes| < 11 { return Some(IndexError); }
            var i := 9 + bytes[8] as int;
            if |bytes| < i + 2 { return Some(IndexError); }
          } else if lc == 5 {
            if tag == 0x5c { memory := Some(DataTag(Slice(bytes, 7, 10))); }
          }
        case Gids =>
          if |bytes| < 7 { return Some(IndexError); }
          if bytes[5] == 0x5c { memory := Some(DataTag(Slice(bytes, 7, 7 + bytes[6] as nat))); }
      }
    }

    method SelectResult(utf8: Utf8, selectT: SelectType, status: int, body: seq<Byte>)
      returns (r: Result<Output, Error>)
      ensures r == Session.SelectResult(utf8, Value(), selectT, status, body)
    {
      match KindOf(aid) {
        case Dummy => r := Ok(Raw(status, body));
        case Gpc => r := Ok(Raw(status, body));
        case Piv =>
          var items := PivSelectResult(utf8, selectT, body);
          r := Printed(status, items);
        case Gids =>
          if |body| == 0 { return Ok(Lines(status, [])); }
          if selectT == FCP {
            var items := ParseFcp(body);
            r := Printed(status, items);
          } else if selectT == FCI {
            var items := ParseFci(body);
            r := Printed(status, items);
          } else {
            r := Ok(Raw(status, body));
          }
      }
    }

    method GetDataResult(utf8: Utf8, status: int, body: seq<Byte>) returns (r: Result<Output, Error>)
      ensures r == Session.GetDataResult(utf8, Value(), status, body)
    {
      match KindOf(aid) {
        case Dummy => r := Ok(Raw(status, body));
        case Gpc => r := Ok(Raw(status, body));
        case Piv =>
          var items := PivGetDataResult(utf8, LastGet(Value()), body);
          r := Printed(status, items);
        case Gids => r := Ok(Lines(status, []));
      }
    }
  }

  class Interpreter {
    const utf8: Utf8
    var lastCmd: Option<Command>
    var lastSelectT: Option<SelectType>
    var lc: Option<Byte>
    var currentApp: Application?

    constructor (utf8: Utf8)
      ensures this.utf8 == utf8 && currentApp == null && Value() == START
    {
      this.utf8 := utf8;
      lastCmd, lastSelectT, lc, currentApp := None, None, None, null;
    }

    /** The state the variables stand for. */
    function Value(): State
      reads this, currentApp
    {
      State(lastCmd, lastSelectT, lc, if currentApp == null then None else Some(currentApp.Value()))
    }

    method SelectCommand(bytes: seq<Byte>) returns (error: Option<Error>)
      requires |bytes| >= 4 && CommandOf(bytes[1]) == Select
      modifies this
      ensures currentApp != old(currentApp) ==> fresh(currentApp)
      ensures error.Some? ==> Send(utf8, old(Value()), bytes) == Err(error.value)
      ensures error.None? ==> Send(utf8, old(Value()), bytes) == Ok(Value().(lastCmd := Some(Select)))
    {
      if |bytes| < 5 { return Some(IndexError); }
      lc := Some(bytes[4]);
      error := None;
      if bytes[2] == 0x00 {
        if |bytes| < 7 { error := Some(IndexError); }
      } else if bytes[2] == 0x04 {
        var aid := AidOf(bytes);
        var t := SelectTypeOf(bytes[3]);
        if t.Some? { lastSelectT := t; }
        if currentApp == null || currentApp.aid != aid {
          currentApp := new Application(aid);
        }
      }
    }

    /** A command; the state changes as `Send` says, or the program ends. */
    method SendCommand(bytes: seq<Byte>) returns (error: Option<Error>)
      modifies this, currentApp
      ensures currentApp != old(currentApp) ==> fresh(currentApp)
      ensures error.Some? ==> Send(utf8, old(Value()), bytes) == Err(error.value)
      ensures error.None? ==> Send(utf8, old(Value()), bytes) == Ok(Value())
    {
      if |bytes| < 4 { return Some(ValueError); }
      var cmd := CommandOf(bytes[1]);
      match cmd {
        case Select =>
          error := SelectCommand(bytes);
          if error.Some? { return; }
        case Verify =>
          if |bytes| < 5 { return Some(IndexError); }
          lc := Some(bytes[4]);
          if PinOf(bytes) != [] && !utf8(PinOf(bytes)) { return Some(TextError); }
        case GetData =>
          if |bytes| < 5 { return Some(IndexError); }
          lc := Some(bytes[4]);
          if currentApp == null { return Some(NoApplication); }
          error := currentApp.GetData(bytes);
          if error.Some? { return; }
        case GetResponse =>
        case Mse =>
          if currentApp == null { return Some(NoApplication); }
          if lc == None { return Some(NoLength); }
        case Pso =>
          if currentApp == null { return Some(NoApplication); }
          if lc == None { return Some(NoLength); }
        case Other(_) =>
      }
      lastCmd := Some(cmd);
      error := None;
    }

    /** A response; nothing is modified. */
    method ReadResponse(bytes: seq<Byte>) returns (r: Result<Output, Error>)
      ensures r == Receive(utf8, Value(), bytes)
    {
      if |bytes| == 0 { return Ok(Silent); }
      if |bytes| == 1 { return Err(IndexError); }
      var n := |bytes|;
      var status := bytes[n - 1] as int + bytes[n - 2] as int * 256;
      var body := bytes[..n - 2];
      if body == [] || lastCmd == None { return Ok(Status(status)); }
      match lastCmd.value {
        case Other(_) => return Ok(Status(status));
        case _ =>
      }
      if currentApp == null { return Err(NoApplication); }
      match lastCmd.value {
        case Select =>
          if lastSelectT == None { return Err(NoSelectType); }
          r := currentApp.SelectResult(utf8, lastSelectT.value, status, body);
        case GetData =>
          r := currentApp.GetDataResult(utf8, status, body);
        case Verify =>
          if KindOf(currentApp.aid).Gids? || KindOf(currentApp.aid).Gpc? { return Err(NoMethod); }
          r := Ok(Raw(status, body));
        case _ => r := Ok(Raw(status, body));
      }
    }

    /** One turn of the main loop. */
    method ReadLine(l: Line) returns (output: Output, error: Option<Error>)
      modifies this, currentApp
      ensures currentApp != old(currentApp) ==> fresh(currentApp)
      ensures error.Some? ==> Step(utf8, old(Value()), l) == Err(error.value)
      ensures error.None? ==> Step(utf8, old(Value()), l) == Ok((Value(), output))
    {
      output, error := Silent, None;
      match l {
        case Sent(bytes) => error := SendCommand(bytes);
        case Received(bytes) =>
          var r := ReadResponse(bytes);
          if r.Err? { return Silent, Some(r.error); }
          output := r.value;
        case Skipped =>
      }
    }

    /** The main loop: it reads the lines in order until the log ends or an exception does. */
    method Interpret(log: seq<Line>) returns (outputs: seq<Output>, error: Option<Error>)
      requires Value() == START
      modifies this, currentApp
      ensures |outputs| <= |log| && AllPrinted(utf8, log, outputs)
      ensures error.None? ==> |outputs| == |log| && Run(utf8, log) == Ok(Value()) && Value() == ReadOff(log)
      ensures error.Some? ==> |outputs| < |log| && EndsAt(utf8, log, |outputs|, error.value)
    {
      outputs, error := [], None;
      for i := 0 to |log|
        invariant currentApp != old(currentApp) ==> fresh(currentApp)
        invariant |outputs| == i && error.None?
        invariant Run(utf8, log[..i]) == Ok(Value())
        invariant AllPrinted(utf8, log, outputs)
      {
        ghost var s := Value();
        var output;
        output, error := ReadLine(log[i]);
        LineIsRead(utf8, log, i, s);
        if error.Some? { return; }
        AllPrintedSnoc(utf8, log, outputs, s, Value(), output);
        outputs := outputs + [output];
      }
      assert log[..|log|] == log;
      RunReadsOff(utf8, log);
    }
  }

  /** The outputs are those of the first lines: each is what a step in the state the lines before it
      leave gives, and what those lines and its own bytes call for. */
  ghost predicate AllPrinted(utf8: Utf8, log: seq<Line>, outputs: seq<Output>) {
    && |outputs| <= |log|
    && forall i :: 0 <= i < |outputs| ==> PrintsAt(utf8, log, i, outputs[i])
  }

  lemma AllPrintedSnoc(utf8: Utf8, log: seq<Line>, outputs: seq<Output>, s: State, s': State, o: Output)
    requires AllPrinted(utf8, log, outputs) && |outputs| < |log|
    requires Run(utf8, log[..|outputs|]) == Ok(s) && Step(utf8, s, log[|outputs|]) == Ok((s', o))
    ensures AllPrinted(utf8, log, outputs + [o])
    ensures Run(utf8, log[..|outputs| + 1]) == Ok(s')
  {
    var i := |outputs|;
    LineIsRead(utf8, log, i, s);
    assert log[..i + 1] == log[..i] + [log[i]];
    RunSnoc(utf8, log[..i], log[i]);
  }

  /** Line i prints o: by the state the lines before it leave, and by what can be read off them. */
  ghost predicate PrintsAt(utf8: Utf8, log: seq<Line>, i: nat, o: Output)
    requires i < |log|
  {
    && Run(utf8, log[..i]).Ok?
    && Step(utf8, Run(utf8, log[..i]).value, log[i]).Ok?
    && Step(utf8, Run(utf8, log[..i]).value, log[i]).value.1 == o
    && LinePrints(utf8, log, i, o)
  }

  /** Line i ends the program with e, and it is the exception its bytes and the lines before it call for. */
  ghost predicate EndsAt(utf8: Utf8, log: seq<Line>, i: nat, e: Error)
    requires i < |log|
  {
    && Run(utf8, log[..i]).Ok?
    && Step(utf8, Run(utf8, log[..i]).value, log[i]) == Err(e)
    && LineRaises(utf8, log, i, e)
  }
}
