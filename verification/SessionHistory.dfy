/**
 The state of the interpreter as a reading of the log, without running it: each variable is what
 the latest line of some kind set it to, and an application's memory counts only while the same
 application stays selected.
 */
module SessionHistory {
  import opened Options
  import opened Tlv
  import opened CardData
  import opened Session

  // ---------- The lines that matter ----------

  /** The kinds of line a variable may depend on. */
  datatype Test =
    | AnyCommand
    | SetsLength
    | SelectsAid
    | SelectsType
    | Stores(kind: Kind)
  {
    predicate Holds(l: Line) {
      l.Sent? && |l.bytes| >= 4 &&
      var cmd := CommandOf(l.bytes[1]);
      match this
      case AnyCommand => true
      case SetsLength => |l.bytes| >= 5 && (cmd.Select? || cmd.Verify? || cmd.GetData?)
      case SelectsAid => |l.bytes| >= 5 && cmd.Select? && l.bytes[2] == 0x04
      case SelectsType =>
        |l.bytes| >= 5 && cmd.Select? && l.bytes[2] == 0x04 && SelectTypeOf(l.bytes[3]).Some?
      case Stores(kind) => |l.bytes| >= 5 && cmd.GetData? && Remembers(kind, l.bytes).Some?
    }
  }

  /** The position of the latest line of a kind. */
  function Latest(log: seq<Line>, t: Test): (k: Option<nat>)
    ensures k.None? ==> forall i :: 0 <= i < |log| ==> !t.Holds(log[i])
    ensures k.Some? ==>
      && k.value < |log| && t.Holds(log[k.value])
      && forall i :: k.value < i < |log| ==> !t.Holds(log[i])
    decreases |log|
  {
    if log == [] then None
    else
      var n := |log| - 1;
      if t.Holds(log[n]) then Some(n) else Latest(log[..n], t)
  }

  // ---------- The variables ----------

  /** The name of the latest command. */
  function LastCommand(log: seq<Line>): Option<Command> {
    match Latest(log, AnyCommand)
    case None => None
    case Some(k) => Some(CommandOf(log[k].bytes[1]))
  }

  /** The length byte of the latest SELECT, VERIFY or GET DATA. */
  function LastLength(log: seq<Line>): Option<Byte> {
    match Latest(log, SetsLength)
    case None => None
    case Some(k) => Some(log[k].bytes[4])
  }

  /** The type of the latest SELECT by AID that gave a known one. */
  function LastSelectType(log: seq<Line>): Option<SelectType> {
    match Latest(log, SelectsType)
    case None => None
    case Some(k) => SelectTypeOf(log[k].bytes[3])
  }

  /** The AID of the latest SELECT by AID. */
  function SelectedAid(log: seq<Line>): Option<seq<Byte>> {
    match Latest(log, SelectsAid)
    case None => None
    case Some(k) => Some(AidOf(log[k].bytes))
  }

  /** The application selected before line k is still selected: since then every SELECT by AID
      repeated its AID. */
  ghost predicate StillSelected(log: seq<Line>, k: nat, aid: seq<Byte>)
    requires k <= |log|
  {
    && SelectedAid(log[..k]) == Some(aid)
    && forall i :: k <= i < |log| && SelectsAid.Holds(log[i]) ==> AidOf(log[i].bytes) == aid
  }

  /** What the latest GET DATA that stores anything stored, provided it went to the application
      that is selected now and that has stayed selected since. */
  ghost function Remembered(log: seq<Line>, aid: seq<Byte>): Option<Memory> {
    match Latest(log, Stores(KindOf(aid)))
    case None => None
    case Some(k) =>
      if StillSelected(log, k, aid) then Remembers(KindOf(aid), log[k].bytes) else None
  }

  /** The whole state, read off the log. */
  ghost function ReadOff(log: seq<Line>): State {
    State(
      LastCommand(log), LastSelectType(log), LastLength(log),
      match SelectedAid(log)
      case None => None
      case Some(aid) => Some(App(aid, Remembered(log, aid))))
  }

  // ---------- One more line ----------

  lemma {:induction false} LatestSnoc(log: seq<Line>, l: Line, t: Test)
    ensures Latest(log + [l], t) == if t.Holds(l) then Some(|log|) else Latest(log, t)
  {
    assert (log + [l])[..|log|] == log && (log + [l])[|log|] == l;
  }

  lemma SelectedAidSnoc(log: seq<Line>, l: Line)
    ensures SelectedAid(log + [l]) == if SelectsAid.Holds(l) then Some(AidOf(l.bytes)) else SelectedAid(log)
  {
    LatestSnoc(log, l, SelectsAid);
  }

  lemma {:induction false} StillSelectedSnoc(log: seq<Line>, l: Line, k: nat, aid: seq<Byte>)
    requires k <= |log|
    ensures StillSelected(log + [l], k, aid) <==>
      StillSelected(log, k, aid) && (SelectsAid.Holds(l) ==> AidOf(l.bytes) == aid)
  {
    var all := log + [l];
    assert all[..k] == log[..k];
    assert all[|log|] == l;
    assert forall i :: 0 <= i < |log| ==> all[i] == log[i];
  }

  /** An application that is still selected is the one selected last. */
  lemma {:induction false} StillSelectedIsSelected(log: seq<Line>, k: nat, aid: seq<Byte>)
    requires k <= |log| && StillSelected(log, k, aid)
    ensures SelectedAid(log) == Some(aid)
    decreases |log|
  {
    if k == |log| {
      assert log[..k] == log;
    } else {
      var n := |log| - 1;
      assert log == log[..n] + [log[n]];
      StillSelectedSnoc(log[..n], log[n], k, aid);
      StillSelectedIsSelected(log[..n], k, aid);
      SelectedAidSnoc(log[..n], log[n]);
    }
  }

  /** Memory after one more line: kept while the application stays, replaced by a GET DATA that
      stores, lost when another AID is selected. */
  lemma {:induction false} RememberedSnoc(log: seq<Line>, l: Line, aid: seq<Byte>)
    requires SelectedAid(log + [l]) == Some(aid)
    ensures Remembered(log + [l], aid) ==
      if SelectsAid.Holds(l) then
        if SelectedAid(log) == Some(aid) then Remembered(log, aid) else None
      else if Stores(KindOf(aid)).Holds(l) then Remembers(KindOf(aid), l.bytes)
      else Remembered(log, aid)
  {
    var t := Stores(KindOf(aid));
    LatestSnoc(log, l, t);
    SelectedAidSnoc(log, l);
    if t.Holds(l) {
      assert (log + [l])[..|log|] == log;
      assert StillSelected(log + [l], |log|, aid);
    } else if Latest(log, t).Some? {
      var k := Latest(log, t).value;
      StillSelectedSnoc(log, l, k, aid);
      if StillSelected(log, k, aid) {
        StillSelectedIsSelected(log, k, aid);
      }
    }
  }

  lemma VariablesSnoc(log: seq<Line>, l: Line)
    ensures LastCommand(log + [l]) == if AnyCommand.Holds(l) then Some(CommandOf(l.bytes[1])) else LastCommand(log)
    ensures LastLength(log + [l]) == if SetsLength.Holds(l) then Some(l.bytes[4]) else LastLength(log)
    ensures LastSelectType(log + [l]) == if SelectsType.Holds(l) then SelectTypeOf(l.bytes[3]) else LastSelectType(log)
  {
    LatestSnoc(log, l, AnyCommand);
    LatestSnoc(log, l, SetsLength);
    LatestSnoc(log, l, SelectsType);
  }

  lemma AppSnoc(log: seq<Line>, l: Line)
    ensures ReadOff(log + [l]).app ==
      match SelectedAid(log + [l])
      case None => None
      case Some(aid) => Some(App(aid,
        if SelectsAid.Holds(l) then
          if SelectedAid(log) == Some(aid) then Remembered(log, aid) else None
        else if Stores(KindOf(aid)).Holds(l) then Remembers(KindOf(aid), l.bytes)
        else Remembered(log, aid)))
  {
    if SelectedAid(log + [l]).Some? {
      RememberedSnoc(log, l, SelectedAid(log + [l]).value);
    }
  }

  lemma SelectReadsOff(utf8: Utf8, log: seq<Line>, bytes: seq<Byte>)
    requires |bytes| >= 4 && CommandOf(bytes[1]).Select? && Send(utf8, ReadOff(log), bytes).Ok?
    ensures Send(utf8, ReadOff(log), bytes).value == ReadOff(log + [Sent(bytes)])
  {
    VariablesSnoc(log, Sent(bytes));
    SelectedAidSnoc(log, Sent(bytes));
    AppSnoc(log, Sent(bytes));
  }

  lemma GetDataReadsOff(utf8: Utf8, log: seq<Line>, bytes: seq<Byte>)
    requires |bytes| >= 4 && CommandOf(bytes[1]).GetData? && Send(utf8, ReadOff(log), bytes).Ok?
    ensures Send(utf8, ReadOff(log), bytes).value == ReadOff(log + [Sent(bytes)])
  {
    VariablesSnoc(log, Sent(bytes));
    SelectedAidSnoc(log, Sent(bytes));
    AppSnoc(log, Sent(bytes));
  }

  lemma OtherReadsOff(utf8: Utf8, log: seq<Line>, bytes: seq<Byte>)
    requires |bytes| >= 4 && Send(utf8, ReadOff(log), bytes).Ok?
    requires !CommandOf(bytes[1]).Select? && !CommandOf(bytes[1]).GetData?
    ensures Send(utf8, ReadOff(log), bytes).value == ReadOff(log + [Sent(bytes)])
  {
    VariablesSnoc(log, Sent(bytes));
    SelectedAidSnoc(log, Sent(bytes));
    AppSnoc(log, Sent(bytes));
  }

  lemma NotSentReadsOff(log: seq<Line>, l: Line)
    requires !l.Sent?
    ensures ReadOff(log + [l]) == ReadOff(log)
  {
    VariablesSnoc(log, l);
    SelectedAidSnoc(log, l);
    AppSnoc(log, l);
  }

  /** One step of the program is one more line of the log. */
  lemma {:induction false} StepReadsOff(utf8: Utf8, log: seq<Line>, l: Line)
    requires Step(utf8, ReadOff(log), l).Ok?
    ensures Step(utf8, ReadOff(log), l).value.0 == ReadOff(log + [l])
  {
    if !l.Sent? {
      NotSentReadsOff(log, l);
    } else if CommandOf(l.bytes[1]).Select? {
      SelectReadsOff(utf8, log, l.bytes);
    } else if CommandOf(l.bytes[1]).GetData? {
      GetDataReadsOff(utf8, log, l.bytes);
    } else {
      OtherReadsOff(utf8, log, l.bytes);
    }
  }

  lemma RunSnoc(utf8: Utf8, log: seq<Line>, l: Line)
    ensures Run(utf8, log + [l]) ==
      match Run(utf8, log)
      case Err(e) => Err(e)
      case Ok(s) =>
        match Step(utf8, s, l)
        case Err(e) => Err(e)
        case Ok((s', _)) => Ok(s')
  {
    assert (log + [l])[..|log|] == log;
  }

  /** On every log the program survives, its state is the one read off the log. */
  lemma {:induction false} RunReadsOff(utf8: Utf8, log: seq<Line>)
    requires Run(utf8, log).Ok?
    ensures Run(utf8, log).value == ReadOff(log)
    decreases |log|
  {
    if |log| == 0 {
    } else {
      var before, l := log[..|log| - 1], log[|log| - 1];
      assert log == before + [l];
      RunSnoc(utf8, before, l);
      RunReadsOff(utf8, before);
      StepReadsOff(utf8, before, l);
    }
  }
}
