/**
 What the four loops print, as tables of labels: one or no line for every element, and the exception
 of the first element that has none.
 */
module CardLines {
  import opened Options
  import opened Tlv
  import opened CardData
  import opened CardReadable
  import opened CardRoundTrip

  // ---------- The labels ----------

  const CARD_HOLDER: map<Byte, string> := map[
    0x30 := "FASC-N", 0x34 := "GUID", 0x35 := "expirationDate", 0x3e := "Issuer Asymmetric Signature"]

  const CAPABILITIES: map<Byte, string> := map[
    0xb4 := "Security Object Buffer", 0xe3 := "Extended Application CardURL",
    0xf0 := "Card Identifier", 0xf1 := "Capability Container version number",
    0xf2 := "Capability Grammar version number", 0xf3 := "Applications CardURL", 0xf4 := "PKCS#15",
    0xf5 := "Registered Data Model number", 0xf6 := "Access Control Rule Table", 0xf7 := "Card APDUs",
    0xfa := "Redirection Tag", 0xfb := "Capability Tuples (CTs)", 0xfc := "Status Tuples (STs)",
    0xfd := "Next CCC", 0xfe := "Error Detection Code"]

  const PIV_APPLICATION: map<Byte, string> := map[
    0x4f := "piv version", 0x50 := "application label", 0x79 := "Coexistent tag allocation authority",
    0xac := "Cryptographic algorithms supported"]

  const FILE_CONTROL: map<Byte, string> := map[
    0x82 := "FileDescriptor", 0x8a := "LifeCycleByte", 0x8c := "SecurityAttributes"]

  /** The label of the tag with the element's own value. */
  function Labelled(labels: map<Byte, string>, e: Element): Item {
    if e.tag in labels then Field(labels[e.tag], e.value) else Unknown(e.tag, e.value)
  }

  // ---------- The lines ----------

  /** A tag allocation authority whose identifier starts with a0 00 00 03 08. */
  predicate IsNist(e: Element) {
    && e.tag == 0x79 && |e.value| >= 7 && e.value[0] == 0x4f
    && e.value[2] == 0xa0 && e.value[3] == 0 && e.value[4] == 0 && e.value[5] == 3 && e.value[6] == 8
  }

  function DataLine(lastGet: Option<seq<Byte>>, e: Element): seq<Item> {
    if lastGet == Some([0x5f, 0xc1, 0x02]) then [Labelled(CARD_HOLDER, e)]
    else if lastGet == Some([0x5f, 0xc1, 0x07]) then
      if e.tag in CAPABILITIES && e.len == 0 then [] else [Labelled(CAPABILITIES, e)]
    else if lastGet == Some([0x5f, 0xc1, 0x05]) then []
    else [Unimplemented(e.tag, e.value)]
  }

  /** The byte after each capability header, wherever it lies: the flags are taken from it. */
  function Given(es: seq<Element>, rest: seq<Byte>): seq<Capability>
    decreases |es|
  {
    if es == [] then []
    else
      var after := es[0].value + Flatten(es[1..]) + rest;
      (if es[0].tag == 0x40 && after != [] then Flags(after[0]) else []) + Given(es[1..], rest)
  }

  function FciLine(e: Element): Item {
    if e.tag == 0x4f then Field("Application AID", e.value)
    else if e.tag == 0x73 then Discretionary(Given(Walk(e.value), Rest(e.value)))
    else Unknown(e.tag, e.value)
  }

  /** What is printed for an element. */
  function LineOf(loop: Loop, e: Element): seq<Item> {
    match loop
    case PivSelectLoop(_, selectT) =>
      [if selectT != FCI then UnreadSelect else if IsNist(e) then NistRid else Labelled(PIV_APPLICATION, e)]
    case PivDataLoop(_, lastGet) => DataLine(lastGet, e)
    case GidsFcpLoop => [Labelled(FILE_CONTROL, e)]
    case GidsFciLoop => [FciLine(e)]
  }

  /** What is printed for some elements, in their order. */
  function LinesOf(loop: Loop, es: seq<Element>): seq<Item>
    decreases |es|
  {
    if es == [] then [] else LineOf(loop, es[0]) + LinesOf(loop, es[1..])
  }

  // ---------- The exceptions ----------

  /** The element raises no exception. */
  predicate Fits(loop: Loop, e: Element) {
    match loop
    case PivSelectLoop(utf8, selectT) => selectT == FCI ==> KnownPivElement(utf8, e)
    case PivDataLoop(utf8, lastGet) =>
      lastGet == Some([0x5f, 0xc1, 0x02]) && e.tag == 0x35 ==> utf8(e.value)
    case GidsFcpLoop => e.tag != 0x84
    case GidsFciLoop => e.tag != 0x50
  }

  ghost predicate AllFit(loop: Loop, es: seq<Element>) {
    forall i :: 0 <= i < |es| ==> Fits(loop, es[i])
  }

  /** The exception an element raises that does not fit. */
  function ErrorOf(loop: Loop, e: Element): Error {
    match loop
    case PivSelectLoop(_, _) =>
      if e.tag == 0x79 then IndexError else if e.tag == 0x50 then TextError else UnboundLocal
    case PivDataLoop(_, _) => TextError
    case _ => NotText
  }

  /** Element k is the first that does not fit. */
  ghost predicate StopsAt(loop: Loop, es: seq<Element>, k: nat) {
    k < |es| && AllFit(loop, es[..k]) && !Fits(loop, es[k])
  }

  // ---------- The capability bytes ----------

  lemma ByteAfterHeader(body: seq<Byte>, es: seq<Element>, rest: seq<Byte>)
    requires |body| > 2 && Next(body) == Flatten(es) + rest
    ensures Head(body).value + Flatten(es) + rest == body[2..]
  {
    assert Head(body).value + Next(body) == body[2..];
    assert Head(body).value + Flatten(es) + rest == Head(body).value + (Flatten(es) + rest);
  }

  lemma GivenHead(e: Element, es: seq<Element>, rest: seq<Byte>)
    requires e.value + Flatten(es) + rest != []
    ensures Given([e] + es, rest) ==
      (if e.tag == 0x40 then Flags((e.value + Flatten(es) + rest)[0]) else []) + Given(es, rest)
  {
    assert ([e] + es)[1..] == es;
  }

  /** On any bytes the tokens are exactly the flags of those bytes. */
  lemma {:induction false} TokensAreGiven(body: seq<Byte>)
    ensures Tokens(body) == Given(Walk(body), Rest(body))
    decreases |body|
  {
    if |body| > 2 {
      TokensAreGiven(Next(body));
      WalkReads(Next(body));
      ByteAfterHeader(body, Walk(Next(body)), Rest(Next(body)));
      GivenHead(Head(body), Walk(Next(body)), Rest(Next(body)));
    }
  }

  // ---------- One element ----------

  lemma PivSelectTurn(utf8: Utf8, selectT: SelectType, e: Element)
    ensures Fits(PivSelectLoop(utf8, selectT), e) ==>
      PivSelectItem(utf8, selectT, e) == Ok(LineOf(PivSelectLoop(utf8, selectT), e))
    ensures !Fits(PivSelectLoop(utf8, selectT), e) ==>
      PivSelectItem(utf8, selectT, e) == Err(ErrorOf(PivSelectLoop(utf8, selectT), e))
  {
    var rid: seq<Byte> := [0xa0, 0x00, 0x00, 0x03, 0x08];
    if |e.value| >= 7 {
      var v := e.value[2..];
      assert v[..5] == rid <==> v[0] == 0xa0 && v[1] == 0 && v[2] == 0 && v[3] == 3 && v[4] == 8;
      assert rid <= v <==> v[..5] == rid;
    }
  }

  lemma HolderTurn(utf8: Utf8, e: Element)
    ensures HolderItem(utf8, e) ==
      if e.tag == 0x35 && !utf8(e.value) then Err(TextError) else Ok([Labelled(CARD_HOLDER, e)])
  {
  }

  lemma ContainerTurn(e: Element)
    ensures ContainerItem(e) ==
      Ok(if e.tag in CAPABILITIES && e.len == 0 then [] else [Labelled(CAPABILITIES, e)])
  {
  }

  lemma PivDataTurn(utf8: Utf8, lastGet: Option<seq<Byte>>, e: Element)
    ensures Fits(PivDataLoop(utf8, lastGet), e) ==>
      PivDataItem(utf8, lastGet, e) == Ok(LineOf(PivDataLoop(utf8, lastGet), e))
    ensures !Fits(PivDataLoop(utf8, lastGet), e) ==>
      PivDataItem(utf8, lastGet, e) == Err(ErrorOf(PivDataLoop(utf8, lastGet), e))
  {
    HolderTurn(utf8, e);
    ContainerTurn(e);
  }

  lemma GidsTurn(loop: Loop, e: Element)
    requires loop == GidsFcpLoop || loop == GidsFciLoop
    ensures Fits(loop, e) ==> loop.Turn(e) == Ok(LineOf(loop, e))
    ensures !Fits(loop, e) ==> loop.Turn(e) == Err(ErrorOf(loop, e))
  {
    TokensAreGiven(e.value);
  }

  lemma TurnIsLine(loop: Loop, e: Element)
    ensures Fits(loop, e) ==> loop.Turn(e) == Ok(LineOf(loop, e))
    ensures !Fits(loop, e) ==> loop.Turn(e) == Err(ErrorOf(loop, e))
  {
    match loop {
      case PivSelectLoop(utf8, selectT) => PivSelectTurn(utf8, selectT, e);
      case PivDataLoop(utf8, lastGet) => PivDataTurn(utf8, lastGet, e);
      case _ => GidsTurn(loop, e);
    }
  }

  // ---------- All of them ----------

  lemma AllFitHead(loop: Loop, es: seq<Element>)
    requires es != []
    ensures AllFit(loop, es) <==> Fits(loop, es[0]) && AllFit(loop, es[1..])
  {
    if Fits(loop, es[0]) && AllFit(loop, es[1..]) {
      forall i | 0 <= i < |es| ensures Fits(loop, es[i]) {
        if i > 0 { assert Fits(loop, es[1..][i - 1]); }
      }
    }
    if AllFit(loop, es) {
      forall i | 0 <= i < |es| - 1 ensures Fits(loop, es[1..][i]) { assert Fits(loop, es[i + 1]); }
    }
  }

  /** On any elements: the lines of all of them if all fit. */
  lemma {:induction false} CollectIsLines(loop: Loop, es: seq<Element>)
    ensures Collect(loop, es).Ok? <==> AllFit(loop, es)
    ensures AllFit(loop, es) ==> Collect(loop, es) == Ok(LinesOf(loop, es))
    decreases |es|
  {
    if es == [] {
    } else {
      AllFitHead(loop, es);
      TurnIsLine(loop, es[0]);
      CollectIsLines(loop, es[1..]);
    }
  }

  /** And otherwise the exception of the first that does not fit. */
  lemma {:induction false} CollectStops(loop: Loop, es: seq<Element>) returns (k: nat)
    requires !AllFit(loop, es)
    ensures StopsAt(loop, es, k) && Collect(loop, es) == Err(ErrorOf(loop, es[k]))
    decreases |es|
  {
    AllFitHead(loop, es);
    TurnIsLine(loop, es[0]);
    if Fits(loop, es[0]) {
      var j := CollectStops(loop, es[1..]);
      k := j + 1;
      AllFitHead(loop, es[..k]);
      assert es[..k][1..] == es[1..][..j];
    } else {
      k := 0;
    }
  }

  // ---------- The readings of a response ----------

  /** The bytes after a header with length n: as many as it says, with others behind them, or fewer
      because the response ends. */
  predicate Framed(n: Byte, value: seq<Byte>, rest: seq<Byte>) {
    |value| == n || (|value| < n && rest == [])
  }

  /** A response read is a tag, a length, the bytes of that length, and bytes that are ignored. */
  lemma PayloadIs(t: Byte, n: Byte, value: seq<Byte>, rest: seq<Byte>)
    requires Framed(n, value, rest)
    ensures Payload([t, n] + value + rest) == value
  {
    var body := [t, n] + value + rest;
    assert body[2..] == value + rest;
  }

  /** A PIV response to SELECT prints a line for every element exactly when all of them fit. */
  lemma PivSelectIsRead(utf8: Utf8, selectT: SelectType, t: Byte, n: Byte, value: seq<Byte>, rest: seq<Byte>)
    requires Framed(n, value, rest)
    ensures PivSelect(utf8, selectT, [t, n] + value + rest) == Ok(LinesOf(PivSelectLoop(utf8, selectT), Walk(value)))
       <==> AllFit(PivSelectLoop(utf8, selectT), Walk(value))
  {
    PayloadIs(t, n, value, rest);
    CollectIsLines(PivSelectLoop(utf8, selectT), Walk(value));
  }

  /** A PIV response to GET DATA prints the lines its elements have under the tag asked for. */
  lemma PivDataIsRead(utf8: Utf8, lastGet: Option<seq<Byte>>, t: Byte, n: Byte, value: seq<Byte>, rest: seq<Byte>)
    requires Framed(n, value, rest)
    ensures PivData(utf8, lastGet, [t, n] + value + rest) == Ok(LinesOf(PivDataLoop(utf8, lastGet), Walk(value)))
       <==> AllFit(PivDataLoop(utf8, lastGet), Walk(value))
  {
    PayloadIs(t, n, value, rest);
    CollectIsLines(PivDataLoop(utf8, lastGet), Walk(value));
  }

  /** A GIDS FCP response prints a heading and a line for every element exactly when none is a DF
      name; under another tag it prints nothing. */
  lemma FcpIsRead(t: Byte, n: Byte, value: seq<Byte>, rest: seq<Byte>)
    requires Framed(n, value, rest)
    ensures t != 0x62 ==> GidsFcp([t, n] + value + rest) == Ok([])
    ensures t == 0x62 ==>
      (GidsFcp([t, n] + value + rest) == Ok([Heading("FCP")] + LinesOf(GidsFcpLoop, Walk(value)))
       <==> NoTag(Walk(value), 0x84))
  {
    PayloadIs(t, n, value, rest);
    CollectIsLines(GidsFcpLoop, Walk(value));
    assert AllFit(GidsFcpLoop, Walk(value)) <==> NoTag(Walk(value), 0x84) by { FitIsNoTag(Walk(value)); }
  }

  /** A GIDS FCI response likewise, unless an element is an application label. */
  lemma FciPrints(t: Byte, n: Byte, value: seq<Byte>, rest: seq<Byte>)
    requires Framed(n, value, rest)
    ensures t != 0x61 ==> GidsFci([t, n] + value + rest) == Ok([])
    ensures t == 0x61 ==>
      (GidsFci([t, n] + value + rest) == Ok([Heading("FCI")] + LinesOf(GidsFciLoop, Walk(value)))
       <==> NoTag(Walk(value), 0x50))
  {
    PayloadIs(t, n, value, rest);
    CollectIsLines(GidsFciLoop, Walk(value));
    assert AllFit(GidsFciLoop, Walk(value)) <==> NoTag(Walk(value), 0x50) by { FitIsNoTag(Walk(value)); }
  }

  lemma FitIsNoTag(es: seq<Element>)
    ensures AllFit(GidsFcpLoop, es) <==> NoTag(es, 0x84)
    ensures AllFit(GidsFciLoop, es) <==> NoTag(es, 0x50)
  {
    forall i | 0 <= i < |es|
      ensures (Fits(GidsFcpLoop, es[i]) <==> es[i].tag != 0x84) && (Fits(GidsFciLoop, es[i]) <==> es[i].tag != 0x50)
    {
    }
  }

  lemma {:induction false} FcpLineEach(es: seq<Element>)
    ensures |LinesOf(GidsFcpLoop, es)| == |es|
    ensures forall i :: 0 <= i < |es| ==> LinesOf(GidsFcpLoop, es)[i] == Labelled(FILE_CONTROL, es[i])
    decreases |es|
  {
    if es != [] {
      var more := LinesOf(GidsFcpLoop, es[1..]);
      FcpLineEach(es[1..]);
      assert LinesOf(GidsFcpLoop, es) == [Labelled(FILE_CONTROL, es[0])] + more;
      assert forall i :: 1 <= i < |es| ==> es[1..][i - 1] == es[i];
    }
  }

  /** The lines of an encoded FCP template: a heading, then every element the loop sees, each with its
      label and its own value. */
  ghost predicate FcpLinesAre(xs: seq<Tlv>, lines: seq<Item>) {
    && |lines| == 1 + |Seen(xs)| && lines[0] == Heading("FCP")
    && forall i :: 0 <= i < |Seen(xs)| ==> lines[1 + i] == Labelled(FILE_CONTROL, Element(xs[i].tag, 0, xs[i].value))
  }

  lemma {:induction false} EncodedLines(xs: seq<Tlv>, es: seq<Element>)
    requires |es| == |Seen(xs)| && forall i :: 0 <= i < |es| ==> es[i].tag == xs[i].tag && es[i].value == xs[i].value
    ensures FcpLinesAre(xs, [Heading("FCP")] + LinesOf(GidsFcpLoop, es))
  {
    FcpLineEach(es);
  }

  /** It is read back as what was encoded, exactly when no element the loop sees is a DF name. */
  lemma {:induction false} FcpTemplateIsRead(xs: seq<Tlv>)
    requires Short(xs) && |Encode(xs)| < 256
    ensures GidsFcp(Template(0x62, xs)).Ok? <==> forall i :: 0 <= i < |Seen(xs)| ==> xs[i].tag != 0x84
    ensures GidsFcp(Template(0x62, xs)).Ok? ==> FcpLinesAre(xs, GidsFcp(Template(0x62, xs)).value)
  {
    SeenAreWalked(xs);
    TemplatePayload(0x62, xs);
    GidsFcpReadable(Template(0x62, xs));
    CollectIsLines(GidsFcpLoop, Elements(Seen(xs)));
    EncodedLines(xs, Elements(Seen(xs)));
  }
}
