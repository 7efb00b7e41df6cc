/**
 How `tools/smartcard-interpreter.py` reads the data objects of a response: the loops of
 `ApplicationPIV` and `ApplicationGids`, each against a reading of the whole element list.
 A printed line becomes an `Item`; an uncaught Python exception becomes an `Error`.
 */
module CardData {
  import opened Options
  import opened Tlv

  datatype Capability = MutualAuthSymAlgo | ExtAuthSymAlgo | KeyEstabIntAuthECC

  datatype Item =
    | Field(name: string, value: seq<Byte>)
    | Unknown(tag: Byte, content: seq<Byte>)
    | Unimplemented(tag: Byte, content: seq<Byte>)
    | Heading(name: string)
    | NistRid
    | Discretionary(tokens: seq<Capability>)
    | UnreadSelect

  datatype Error =
    | IndexError      // an index past the end of the bytes
    | ValueError      // the four header bytes cannot be unpacked
    | TextError       // bytes that are not UTF-8
    | UnboundLocal    // the misspelt variable of the unknown-tag branch
    | NotText         // .encode on bytes
    | NoApplication   // no application selected yet
    | NoSelectType    // lastSelectT read before it was assigned
    | NoLength        // lc read before it was assigned
    | NoMethod        // the application has no such method

  type Reading = Result<seq<Item>, Error>

  /** Whether bytes decode as UTF-8: a parameter, since text decoding is not modelled. */
  type Utf8 = seq<Byte> -> bool

  datatype SelectType = FCI | FCP | FMD

  /** The loops, by what a turn of each does. */
  datatype Loop =
    | PivSelectLoop(utf8: Utf8, selectT: SelectType)
    | PivDataLoop(utf8: Utf8, lastGet: Option<seq<Byte>>)
    | GidsFcpLoop
    | GidsFciLoop
  {
    function Turn(e: Element): Reading {
      match this
      case PivSelectLoop(utf8, selectT) => PivSelectItem(utf8, selectT, e)
      case PivDataLoop(utf8, lastGet) => PivDataItem(utf8, lastGet, e)
      case GidsFcpLoop => GidsFcpItem(e)
      case GidsFciLoop => GidsFciItem(e)
    }
  }

  /** The lines of the elements one after the other, up to the first exception. */
  function Collect(loop: Loop, es: seq<Element>): Reading
    decreases |es|
  {
    if es == [] then Ok([])
    else
      match loop.Turn(es[0])
      case Err(e) => Err(e)
      case Ok(items) => After(items, Collect(loop, es[1..]))
  }

  /** A reading after lines already printed. */
  function After(done: seq<Item>, r: Reading): Reading {
    match r
    case Err(e) => Err(e)
    case Ok(items) => Ok(done + items)
  }

  lemma AfterAfter(a: seq<Item>, b: seq<Item>, r: Reading)
    ensures After(a, After(b, r)) == After(a + b, r) && After([], r) == r
    ensures After(a, Ok([])) == Ok(a) && a + [] == a
  {
    assert a + [] == a;
    match r {
      case Err(_) =>
      case Ok(items) => assert a + (b + items) == (a + b) + items && [] + items == items;
    }
  }

  /** One turn of a loop. */
  lemma {:induction false} CollectHead(loop: Loop, body: seq<Byte>, done: seq<Item>)
    requires |body| > 2
    ensures After(done, Collect(loop, Walk(body))) ==
      match loop.Turn(Head(body))
      case Err(e) => Err(e)
      case Ok(items) => After(done + items, Collect(loop, Walk(Next(body))))
  {
    assert Walk(body)[0] == Head(body) && Walk(body)[1..] == Walk(Next(body));
    match loop.Turn(Head(body)) {
      case Err(_) =>
      case Ok(items) =>
        assert Collect(loop, Walk(body)) == After(items, Collect(loop, Walk(Next(body))));
        AfterAfter(done, items, Collect(loop, Walk(Next(body))));
    }
  }

  /** The template around the elements: a tag, a length, and that many bytes. */
  function Payload(body: seq<Byte>): seq<Byte>
    requires |body| >= 2
  {
    Slice(body, 2, 2 + body[1] as nat)
  }

  // ---------- ApplicationPIV ----------

  const NIST_RID: seq<Byte> := [0xa0, 0x00, 0x00, 0x03, 0x08]
  const CARD_HOLDER_UNIQUE_ID: seq<Byte> := [0x5f, 0xc1, 0x02]
  const CARD_CAPABILITY_CONTAINER: seq<Byte> := [0x5f, 0xc1, 0x07]
  const PIV_AUTHENTICATION_CERTIFICATE: seq<Byte> := [0x5f, 0xc1, 0x05]

  function PivSelectItem(utf8: Utf8, selectT: SelectType, e: Element): Reading {
    if selectT != FCI then Ok([UnreadSelect])
    else if e.tag == 0x4f then Ok([Field("piv version", e.value)])
    else if e.tag == 0x79 then
      if |e.value| < 2 then Err(IndexError)
      else if e.value[0] == 0x4f && NIST_RID <= e.value[2..] then Ok([NistRid])
      else Ok([Field("Coexistent tag allocation authority", e.value)])
    else if e.tag == 0x50 then
      if utf8(e.value) then Ok([Field("application label", e.value)]) else Err(TextError)
    else if e.tag == 0xac then Ok([Field("Cryptographic algorithms supported", e.value)])
    else Err(UnboundLocal)
  }

  function CapabilityName(tag: Byte): Option<string> {
    match tag as int
    case 0xf0 => Some("Card Identifier")
    case 0xf1 => Some("Capability Container version number")
    case 0xf2 => Some("Capability Grammar version number")
    case 0xf3 => Some("Applications CardURL")
    case 0xf4 => Some("PKCS#15")
    case 0xf5 => Some("Registered Data Model number")
    case 0xf6 => Some("Access Control Rule Table")
    case 0xf7 => Some("Card APDUs")
    case 0xfa => Some("Redirection Tag")
    case 0xfb => Some("Capability Tuples (CTs)")
    case 0xfc => Some("Status Tuples (STs)")
    case 0xfd => Some("Next CCC")
    case 0xe3 => Some("Extended Application CardURL")
    case 0xb4 => Some("Security Object Buffer")
    case 0xfe => Some("Error Detection Code")
    case _ => None
  }

  function HolderItem(utf8: Utf8, e: Element): Reading {
    if e.tag == 0x30 then Ok([Field("FASC-N", e.value)])
    else if e.tag == 0x34 then Ok([Field("GUID", e.value)])
    else if e.tag == 0x35 then
      if utf8(e.value) then Ok([Field("expirationDate", e.value)]) else Err(TextError)
    else if e.tag == 0x3e then Ok([Field("Issuer Asymmetric Signature", e.value)])
    else Ok([Unknown(e.tag, e.value)])
  }

  function ContainerItem(e: Element): Reading {
    match CapabilityName(e.tag)
    case Some(name) => if e.len != 0 then Ok([Field(name, e.value)]) else Ok([])
    case None => Ok([Unknown(e.tag, e.value)])
  }

  function PivDataItem(utf8: Utf8, lastGet: Option<seq<Byte>>, e: Element): Reading {
    if lastGet == Some(CARD_HOLDER_UNIQUE_ID) then HolderItem(utf8, e)
    else if lastGet == Some(CARD_CAPABILITY_CONTAINER) then ContainerItem(e)
    else if lastGet == Some(PIV_AUTHENTICATION_CERTIFICATE) then Ok([])
    else Ok([Unimplemented(e.tag, e.value)])
  }

  /** `ApplicationPIV.selectResult`, as a reading of the element list. */
  function PivSelect(utf8: Utf8, selectT: SelectType, body: seq<Byte>): Reading {
    if |body| < 2 then Err(IndexError)
    else Collect(PivSelectLoop(utf8, selectT), Walk(Payload(body)))
  }

  /** `ApplicationPIV.getDataResult`, as a reading of the element list. */
  function PivData(utf8: Utf8, lastGet: Option<seq<Byte>>, body: seq<Byte>): Reading {
    if body == [] then Ok([])
    else if |body| < 2 then Err(IndexError)
    else Collect(PivDataLoop(utf8, lastGet), Walk(Payload(body)))
  }

  method PivSelectResult(utf8: Utf8, selectT: SelectType, response: seq<Byte>) returns (r: Reading)
    ensures r == PivSelect(utf8, selectT, response)
  {
    if |response| < 2 { return Err(IndexError); }
    ghost var loop := PivSelectLoop(utf8, selectT);
    var ret: seq<Item> := [];
    var body := Slice(response, 2, 2 + response[1] as nat);
    AfterAfter([], [], Collect(loop, Walk(body)));
    while |body| > 2
      invariant PivSelect(utf8, selectT, response) == After(ret, Collect(loop, Walk(body)))
      decreases |body|
    {
      CollectHead(loop, body, ret);
      var tag, tagLen := body[0], body[1];
      var line := PivSelectItem(utf8, selectT, Element(tag, tagLen, Slice(body, 2, 2 + tagLen as nat)));
      if line.Err? { return line; }
      ret := ret + line.value;
      body := From(body, 2 + tagLen as nat);
    }
    AfterAfter(ret, [], Ok([]));
    r := Ok(ret);
  }

  method PivGetDataResult(utf8: Utf8, lastGet: Option<seq<Byte>>, response: seq<Byte>) returns (r: Reading)
    ensures r == PivData(utf8, lastGet, response)
  {
    if |response| == 0 { return Ok([]); }
    if |response| < 2 { return Err(IndexError); }
    ghost var loop := PivDataLoop(utf8, lastGet);
    var ret: seq<Item> := [];
    var body := Slice(response, 2, 2 + response[1] as nat);
    AfterAfter([], [], Collect(loop, Walk(body)));
    while |body| > 2
      invariant PivData(utf8, lastGet, response) == After(ret, Collect(loop, Walk(body)))
      decreases |body|
    {
      CollectHead(loop, body, ret);
      var tag, tagLen := body[0], body[1];
      var line := PivDataItem(utf8, lastGet, Element(tag, tagLen, Slice(body, 2, 2 + tagLen as nat)));
      if line.Err? { return line; }
      ret := ret + line.value;
      body := From(body, 2 + tagLen as nat);
    }
    AfterAfter(ret, [], Ok([]));
    r := Ok(ret);
  }

  // ---------- ApplicationGids ----------

  /** The test `v & bit` for a power of two. */
  predicate HasBit(v: Byte, bit: int)
    requires bit > 0
  {
    v as int / bit % 2 == 1
  }

  /** The flags of one capability byte, highest bit first. */
  function Flags(v: Byte): seq<Capability> {
    (if HasBit(v, 0x80) then [MutualAuthSymAlgo] else [])
    + (if HasBit(v, 0x40) then [ExtAuthSymAlgo] else [])
    + (if HasBit(v, 0x20) then [KeyEstabIntAuthECC] else [])
  }

  /** The innermost loop; it takes the byte after the header, whether or not it is in the value. */
  function Tokens(body: seq<Byte>): seq<Capability>
    decreases |body|
  {
    if |body| <= 2 then []
    else (if body[0] == 0x40 then Flags(body[2]) else []) + Tokens(Next(body))
  }

  function GidsFcpItem(e: Element): Reading {
    if e.tag == 0x82 then Ok([Field("FileDescriptor", e.value)])
    else if e.tag == 0x8a then Ok([Field("LifeCycleByte", e.value)])
    else if e.tag == 0x84 then Err(NotText)
    else if e.tag == 0x8c then Ok([Field("SecurityAttributes", e.value)])
    else Ok([Unknown(e.tag, e.value)])
  }

  function GidsFciItem(e: Element): Reading {
    if e.tag == 0x4f then Ok([Field("Application AID", e.value)])
    else if e.tag == 0x50 then Err(NotText)
    else if e.tag == 0x73 then Ok([Discretionary(Tokens(e.value))])
    else Ok([Unknown(e.tag, e.value)])
  }

  /** `parseFcp`, as a reading of the element list. */
  function GidsFcp(body: seq<Byte>): Reading {
    if |body| < 2 then Err(IndexError)
    else if body[0] != 0x62 then Ok([])
    else After([Heading("FCP")], Collect(GidsFcpLoop, Walk(Payload(body))))
  }

  /** `parseFci`, as a reading of the element list. */
  function GidsFci(body: seq<Byte>): Reading {
    if |body| < 2 then Err(IndexError)
    else if body[0] != 0x61 then Ok([])
    else After([Heading("FCI")], Collect(GidsFciLoop, Walk(Payload(body))))
  }

  method ParseFcp(bytes: seq<Byte>) returns (r: Reading)
    ensures r == GidsFcp(bytes)
  {
    if |bytes| < 2 { return Err(IndexError); }
    var ret: seq<Item> := [];
    var body := Slice(bytes, 2, 2 + bytes[1] as nat);
    if bytes[0] == 0x62 {
      ret := [Heading("FCP")];
      while |body| > 2
        invariant GidsFcp(bytes) == After(ret, Collect(GidsFcpLoop, Walk(body)))
        decreases |body|
      {
        CollectHead(GidsFcpLoop, body, ret);
        var tag, tagLen := body[0], body[1];
        var line := GidsFcpItem(Element(tag, tagLen, Slice(body, 2, 2 + tagLen as nat)));
        if line.Err? { return line; }
        ret := ret + line.value;
        body := From(body, 2 + tagLen as nat);
      }
    }
    AfterAfter(ret, [], Ok([]));
    r := Ok(ret);
  }

  method ParseFci(bytes: seq<Byte>) returns (r: Reading)
    ensures r == GidsFci(bytes)
  {
    if |bytes| < 2 { return Err(IndexError); }
    var ret: seq<Item> := [];
    var body := Slice(bytes, 2, 2 + bytes[1] as nat);
    if bytes[0] == 0x61 {
      ret := [Heading("FCI")];
      while |body| > 2
        invariant GidsFci(bytes) == After(ret, Collect(GidsFciLoop, Walk(body)))
        decreases |body|
      {
        CollectHead(GidsFciLoop, body, ret);
        var tag2, tag2Len := body[0], body[1];
        var tag2Body := Slice(body, 2, 2 + tag2Len as nat);
        var line: Reading;
        if tag2 == 0x73 {
          var tokens := DiscretionaryData(tag2Body);
          line := Ok([Discretionary(tokens)]);
        } else {
          line := GidsFciItem(Element(tag2, tag2Len, tag2Body));
        }
        if line.Err? { return line; }
        ret := ret + line.value;
        body := From(body, 2 + tag2Len as nat);
      }
    }
    AfterAfter(ret, [], Ok([]));
    r := Ok(ret);
  }

  method DiscretionaryData(tag2Body: seq<Byte>) returns (tokens: seq<Capability>)
    ensures tokens == Tokens(tag2Body)
  {
    var body2 := tag2Body;
    tokens := [];
    while |body2| > 2
      invariant Tokens(tag2Body) == tokens + Tokens(body2)
      decreases |body2|
    {
      ghost var before, seen := tokens, body2;
      var tag3, tag3Len := body2[0], body2[1];
      if tag3 == 0x40 {
        tokens := tokens + Flags(body2[2]);
      }
      body2 := From(body2, 2 + tag3Len as nat);
      TokensStep(before, seen);
    }
  }

  lemma {:induction false} TokensStep(before: seq<Capability>, body: seq<Byte>)
    requires |body| > 2
    ensures before + Tokens(body) ==
      (if body[0] == 0x40 then before + Flags(body[2]) else before) + Tokens(Next(body))
  {
    assert [] + Tokens(Next(body)) == Tokens(Next(body));
  }
}
