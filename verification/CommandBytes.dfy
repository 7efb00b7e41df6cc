/**
 What a command does, over its bytes as they are written in a log: after any log that is read
 without an exception, the state the next command leaves is given by the bytes of that command.
 */
module CommandBytes {
  import opened Options
  import opened Tlv
  import opened CardData
  import opened Session
  import opened SessionHistory

  /** As many bytes as announced, with others behind them, or fewer because the command ends. */
  predicate Taken(n: int, value: seq<Byte>, rest: seq<Byte>) {
    |value| == n || (|value| < n && rest == [])
  }

  lemma OneCommand(utf8: Utf8, log: seq<Line>, s: State, bytes: seq<Byte>)
    requires Run(utf8, log) == Ok(s)
    ensures Run(utf8, log + [Sent(bytes)]) == Send(utf8, s, bytes)
  {
    RunSnoc(utf8, log, Sent(bytes));
  }

  // ---------- The commands by name ----------

  const VERIFY: set<Byte> := {0x20, 0x21}
  const MSE: set<Byte> := {0x22, 0x25}
  const GET_DATA: set<Byte> := {0xca, 0xcb}
  const NAMED: set<Byte> := {0x20, 0x21, 0x22, 0x25, 0x2a, 0xa4, 0xc0, 0xca, 0xcb}

  /** Which instruction bytes are which command. */
  lemma CommandNames(utf8: Utf8, log: seq<Line>, s: State, bytes: seq<Byte>)
    requires Run(utf8, log + [Sent(bytes)]) == Ok(s)
    ensures |bytes| >= 4
    ensures s.lastCmd == Some(Select) <==> bytes[1] == 0xa4
    ensures s.lastCmd == Some(Verify) <==> bytes[1] in VERIFY
    ensures s.lastCmd == Some(GetData) <==> bytes[1] in GET_DATA
    ensures s.lastCmd == Some(GetResponse) <==> bytes[1] == 0xc0
    ensures s.lastCmd == Some(Mse) <==> bytes[1] in MSE
    ensures s.lastCmd == Some(Pso) <==> bytes[1] == 0x2a
    ensures s.lastCmd == Some(Other(bytes[1])) <==> bytes[1] !in NAMED
  {
    RunSnoc(utf8, log, Sent(bytes));
  }

  // ---------- SELECT ----------

  /** A SELECT by AID: the AID, the type, the length; memory stays only with the same AID. */
  lemma SelectsByAid(utf8: Utf8, log: seq<Line>, s: State, cla: Byte, p2: Byte, n: Byte,
                     aid: seq<Byte>, rest: seq<Byte>)
    requires Run(utf8, log) == Ok(s) && Taken(n, aid, rest)
    ensures Run(utf8, log + [Sent([cla, 0xa4, 0x04, p2, n] + aid + rest)]) == Ok(State(
      Some(Select),
      if p2 == 0 then Some(FCI) else if p2 == 4 then Some(FCP) else if p2 == 8 then Some(FMD) else s.lastSelectT,
      Some(n),
      Some(App(aid, if s.app.Some? && s.app.value.aid == aid then s.app.value.memory else None))))
  {
    var bytes := [cla, 0xa4, 0x04, p2, n] + aid + rest;
    OneCommand(utf8, log, s, bytes);
    assert bytes[5..] == aid + rest;
    assert AidOf(bytes) == aid;
  }

  /** Any other SELECT sets the length and nothing else; one by file needs the two bytes of the file. */
  lemma SelectsOtherwise(utf8: Utf8, log: seq<Line>, s: State, cla: Byte, p1: Byte, p2: Byte, n: Byte,
                         rest: seq<Byte>)
    requires Run(utf8, log) == Ok(s) && p1 != 0x04
    ensures Run(utf8, log + [Sent([cla, 0xa4, p1, p2, n] + rest)]) ==
      if p1 == 0 && |rest| < 2 then Err(IndexError) else Ok(s.(lastCmd := Some(Select), lc := Some(n)))
  {
    OneCommand(utf8, log, s, [cla, 0xa4, p1, p2, n] + rest);
  }

  // ---------- GET DATA ----------

  predicate IsPiv(aid: seq<Byte>) {
    aid == [0xa0, 0x00, 0x00, 0x03, 0x08] || aid == [0xa0, 0x00, 0x00, 0x03, 0x08, 0x00, 0x00, 0x10, 0x00]
  }

  predicate IsGids(aid: seq<Byte>) { aid == [0xa0, 0x00, 0x00, 0x03, 0x97, 0x42, 0x54, 0x46, 0x59] }

  predicate IsGpc(aid: seq<Byte>) { aid == [0xa0, 0x00, 0x00, 0x01, 0x51, 0x00, 0x00] }

  lemma Kinds(aid: seq<Byte>)
    ensures KindOf(aid) == Piv <==> IsPiv(aid)
    ensures KindOf(aid) == Gids <==> IsGids(aid)
    ensures KindOf(aid) == Gpc <==> IsGpc(aid)
  {
    assert IsGids(aid) || IsGpc(aid) ==> aid[3] != 0x03 || aid[4] != 0x08;
    assert IsGpc(aid) ==> aid[3] == 0x01;
  }

  /** After a GET DATA of n data bytes to the application in s, with this memory. */
  function Asked(s: State, n: Byte, m: Option<Memory>): State
    requires s.app.Some?
  {
    State(Some(GetData), s.lastSelectT, Some(n), Some(App(s.app.value.aid, m)))
  }

  /** A PIV application remembers the three bytes of the tag it is asked for. */
  lemma PivRemembers(utf8: Utf8, log: seq<Line>, s: State, cla: Byte, ins: Byte, p1: Byte, p2: Byte, t: Byte,
                     tag: seq<Byte>, rest: seq<Byte>)
    requires Run(utf8, log) == Ok(s) && s.app.Some? && IsPiv(s.app.value.aid)
    requires ins in GET_DATA && Taken(3, tag, rest)
    ensures Run(utf8, log + [Sent([cla, ins, p1, p2, 5, 0x5c, t] + tag + rest)]) == Ok(Asked(s, 5, Some(DataTag(tag))))
  {
    var bytes := [cla, ins, p1, p2, 5, 0x5c, t] + tag + rest;
    OneCommand(utf8, log, s, bytes);
    Kinds(s.app.value.aid);
    assert bytes[7..] == tag + rest;
    assert Slice(bytes, 7, 10) == tag;
  }

  /** The other GET DATA of a PIV application: it keeps what it has, or there is a byte too few. */
  lemma PivKeeps(utf8: Utf8, log: seq<Line>, s: State, cla: Byte, ins: Byte, p1: Byte, p2: Byte, n: Byte,
                 data: seq<Byte>)
    requires Run(utf8, log) == Ok(s) && s.app.Some? && IsPiv(s.app.value.aid)
    requires ins in GET_DATA && (|data| < 2 || n != 5 || data[0] != 0x5c)
    ensures Run(utf8, log + [Sent([cla, ins, p1, p2, n] + data)]) ==
      if |data| >= 2 && ((n == 4 && |data| < 4) || (n == 10 && (|data| < 6 || |data| < 6 + data[3] as int)))
      then Err(IndexError) else Ok(Asked(s, n, s.app.value.memory))
  {
    var bytes := [cla, ins, p1, p2, n] + data;
    OneCommand(utf8, log, s, bytes);
    Kinds(s.app.value.aid);
    assert forall i :: 0 <= i < |data| ==> bytes[5 + i] == data[i];
    assert |bytes| >= 9 ==> bytes[8] == data[3];
  }

  /** A GIDS application remembers the data object it is asked for. */
  lemma GidsRemembers(utf8: Utf8, log: seq<Line>, s: State, cla: Byte, ins: Byte, p1: Byte, p2: Byte, n: Byte,
                      k: Byte, wanted: seq<Byte>, rest: seq<Byte>)
    requires Run(utf8, log) == Ok(s) && s.app.Some? && IsGids(s.app.value.aid)
    requires ins in GET_DATA && Taken(k, wanted, rest)
    ensures Run(utf8, log + [Sent([cla, ins, p1, p2, n, 0x5c, k] + wanted + rest)]) ==
      Ok(Asked(s, n, Some(DataTag(wanted))))
  {
    var bytes := [cla, ins, p1, p2, n, 0x5c, k] + wanted + rest;
    OneCommand(utf8, log, s, bytes);
    Kinds(s.app.value.aid);
    assert bytes[7..] == wanted + rest;
    assert Slice(bytes, 7, 7 + k as nat) == wanted;
  }

  lemma GidsKeeps(utf8: Utf8, log: seq<Line>, s: State, cla: Byte, ins: Byte, p1: Byte, p2: Byte, n: Byte,
                  data: seq<Byte>)
    requires Run(utf8, log) == Ok(s) && s.app.Some? && IsGids(s.app.value.aid)
    requires ins in GET_DATA && (|data| < 2 || data[0] != 0x5c)
    ensures Run(utf8, log + [Sent([cla, ins, p1, p2, n] + data)]) ==
      if |data| < 2 then Err(IndexError) else Ok(Asked(s, n, s.app.value.memory))
  {
    OneCommand(utf8, log, s, [cla, ins, p1, p2, n] + data);
    Kinds(s.app.value.aid);
  }

  /** A GlobalPlatform application remembers the two parameter bytes; an unknown one nothing. */
  lemma OthersRemember(utf8: Utf8, log: seq<Line>, s: State, cla: Byte, ins: Byte, p1: Byte, p2: Byte, n: Byte,
                       data: seq<Byte>)
    requires Run(utf8, log) == Ok(s) && s.app.Some? && !IsPiv(s.app.value.aid) && !IsGids(s.app.value.aid)
    requires ins in GET_DATA
    ensures Run(utf8, log + [Sent([cla, ins, p1, p2, n] + data)]) == Ok(Asked(s, n,
      if IsGpc(s.app.value.aid) then Some(FileId(p1 as int * 256 + p2 as int)) else s.app.value.memory))
  {
    OneCommand(utf8, log, s, [cla, ins, p1, p2, n] + data);
    Kinds(s.app.value.aid);
  }

  // ---------- The other commands ----------

  lemma PinIs(header: seq<Byte>, n: Byte, pin: seq<Byte>, rest: seq<Byte>)
    requires |header| == 4
    requires if n < 2 then pin == [] else Taken(n - 2, pin, rest)
    ensures PinOf(header + [n] + pin + rest) == pin
  {
    var bytes := header + [n] + pin + rest;
    assert bytes[5..] == pin + rest;
  }

  /** A VERIFY fails exactly when its PIN, all data bytes but the last two, is not text. */
  lemma Verifies(utf8: Utf8, log: seq<Line>, s: State, cla: Byte, ins: Byte, p1: Byte, p2: Byte, n: Byte,
                 pin: seq<Byte>, rest: seq<Byte>)
    requires Run(utf8, log) == Ok(s) && ins in VERIFY
    requires if n < 2 then pin == [] else Taken(n - 2, pin, rest)
    ensures Run(utf8, log + [Sent([cla, ins, p1, p2, n] + pin + rest)]) ==
      if pin != [] && !utf8(pin) then Err(TextError) else Ok(s.(lastCmd := Some(Verify), lc := Some(n)))
  {
    var bytes := [cla, ins, p1, p2, n] + pin + rest;
    OneCommand(utf8, log, s, bytes);
    PinIs([cla, ins, p1, p2], n, pin, rest);
    assert bytes == [cla, ins, p1, p2] + [n] + pin + rest;
  }

  /** An application is selected by a command that also sets the length. */
  lemma LengthIsKnown(utf8: Utf8, log: seq<Line>, s: State)
    requires Run(utf8, log) == Ok(s) && s.app.Some?
    ensures s.lc.Some?
  {
    RunReadsOff(utf8, log);
    assert SetsLength.Holds(log[Latest(log, SelectsAid).value]);
  }

  /** Every other command leaves the state alone but for its name; MSE and PSO need an application. */
  lemma KeepsState(utf8: Utf8, log: seq<Line>, s: State, cla: Byte, ins: Byte, p1: Byte, p2: Byte, data: seq<Byte>)
    requires Run(utf8, log) == Ok(s) && ins != 0xa4 && ins !in VERIFY && ins !in GET_DATA
    ensures Run(utf8, log + [Sent([cla, ins, p1, p2] + data)]) ==
      if (ins in MSE || ins == 0x2a) && s.app.None? then Err(NoApplication)
      else Ok(s.(lastCmd := Some(
        if ins in MSE then Mse else if ins == 0x2a then Pso else if ins == 0xc0 then GetResponse else Other(ins))))
  {
    OneCommand(utf8, log, s, [cla, ins, p1, p2] + data);
    if s.app.Some? { LengthIsKnown(utf8, log, s); }
  }

  /** A command cut short: four header bytes, and the length byte where one is read. */
  lemma TooShort(utf8: Utf8, log: seq<Line>, s: State, bytes: seq<Byte>)
    requires Run(utf8, log) == Ok(s)
    ensures |bytes| < 4 ==> Run(utf8, log + [Sent(bytes)]) == Err(ValueError)
    ensures |bytes| == 4 && (bytes[1] == 0xa4 || bytes[1] in VERIFY || bytes[1] in GET_DATA) ==>
      Run(utf8, log + [Sent(bytes)]) == Err(IndexError)
  {
    OneCommand(utf8, log, s, bytes);
  }

  /** GET DATA before any application is selected. */
  lemma NobodyAsked(utf8: Utf8, log: seq<Line>, s: State, cla: Byte, ins: Byte, p1: Byte, p2: Byte, n: Byte,
                    data: seq<Byte>)
    requires Run(utf8, log) == Ok(s) && s.app.None? && ins in GET_DATA
    ensures Run(utf8, log + [Sent([cla, ins, p1, p2, n] + data)]) == Err(NoApplication)
  {
    OneCommand(utf8, log, s, [cla, ins, p1, p2, n] + data);
  }
}
