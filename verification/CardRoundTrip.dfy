/** What the loops make of an encoded template, through all its levels. */
module CardRoundTrip {
  import opened Options
  import opened Tlv
  import opened CardData
  import opened CardReadable

  /** A template: a tag, a length, and the encoded elements. */
  function Template(tag: Byte, xs: seq<Tlv>): seq<Byte>
    requires Short(xs) && |Encode(xs)| < 256
  {
    [tag, |Encode(xs)|] + Encode(xs)
  }

  lemma TemplatePayload(tag: Byte, xs: seq<Tlv>)
    requires Short(xs) && |Encode(xs)| < 256
    ensures Payload(Template(tag, xs)) == Encode(xs)
  {
  }

  /** GET DATA and SELECT responses built from any list of elements are read element by element,
      each with its own value; only a last element without a value is not seen. */
  lemma PivReadsTemplate(utf8: Utf8, lastGet: Option<seq<Byte>>, selectT: SelectType, tag: Byte, xs: seq<Tlv>)
    requires Short(xs) && |Encode(xs)| < 256
    ensures Short(Seen(xs))
    ensures PivData(utf8, lastGet, Template(tag, xs)) == Collect(PivDataLoop(utf8, lastGet), Elements(Seen(xs)))
    ensures PivSelect(utf8, selectT, Template(tag, xs)) == Collect(PivSelectLoop(utf8, selectT), Elements(Seen(xs)))
  {
    TemplatePayload(tag, xs);
    SeenAreWalked(xs);
  }

  // ---------- The capability bytes ----------

  /** The tokens the capability elements are meant to give: the flags of the first byte of each value. */
  function Meant(es: seq<Element>): seq<Capability>
    decreases |es|
  {
    if es == [] then []
    else (if es[0].tag == 0x40 && es[0].value != [] then Flags(es[0].value[0]) else []) + Meant(es[1..])
  }

  /** The loop meets an empty capability element, and the byte after its header has a flag bit. */
  predicate Borrows(body: seq<Byte>)
    decreases |body|
  {
    |body| > 2 && ((body[0] == 0x40 && body[1] == 0 && body[2] >= 0x20) || Borrows(Next(body)))
  }

  lemma TopBits(v: Byte)
    ensures v as int / 0x20 == (if HasBit(v, 0x80) then 4 else 0) + (if HasBit(v, 0x40) then 2 else 0)
      + (if HasBit(v, 0x20) then 1 else 0)
  {
  }

  /** The flags are the top three bits, no more and no less. */
  lemma FlagsAreTopBits(v: Byte, w: Byte)
    ensures Flags(v) == Flags(w) <==> v as int / 0x20 == w as int / 0x20
  {
    TopBits(v);
    TopBits(w);
    FlagMembers(v);
    FlagMembers(w);
  }

  lemma FlagMembers(v: Byte)
    ensures MutualAuthSymAlgo in Flags(v) <==> HasBit(v, 0x80)
    ensures ExtAuthSymAlgo in Flags(v) <==> HasBit(v, 0x40)
    ensures KeyEstabIntAuthECC in Flags(v) <==> HasBit(v, 0x20)
  {
  }

  /** The flags of a byte, by its top three bits: which they are, and in which order. */
  lemma FlagsInOrder(v: Byte)
    ensures Flags(v) == match v as int / 0x20
      case 0 => []
      case 1 => [KeyEstabIntAuthECC]
      case 2 => [ExtAuthSymAlgo]
      case 3 => [ExtAuthSymAlgo, KeyEstabIntAuthECC]
      case 4 => [MutualAuthSymAlgo]
      case 5 => [MutualAuthSymAlgo, KeyEstabIntAuthECC]
      case 6 => [MutualAuthSymAlgo, ExtAuthSymAlgo]
      case _ => [MutualAuthSymAlgo, ExtAuthSymAlgo, KeyEstabIntAuthECC]
  {
    TopBits(v);
  }

  lemma NoFlags(v: Byte)
    ensures Flags(v) == [] <==> v < 0x20
  {
    FlagsAreTopBits(v, 0);
    FlagMembers(0);
    assert Flags(0) == [];
  }

  lemma {:induction false} TokensVersusMeant(body: seq<Byte>)
    ensures |Tokens(body)| >= |Meant(Walk(body))|
    ensures |Tokens(body)| == |Meant(Walk(body))| ==> !Borrows(body)
    ensures !Borrows(body) ==> Tokens(body) == Meant(Walk(body))
    decreases |body|
  {
    if |body| > 2 {
      TokensVersusMeant(Next(body));
      NoFlags(body[2]);
      assert Walk(body)[1..] == Walk(Next(body));
      assert Head(body).value != [] <==> body[1] > 0;
    }
  }

  /** On any bytes the innermost loop gives the tokens the elements are meant to give exactly when no
      empty capability element borrows a flag from the byte after its header. */
  lemma TokensMeantIff(body: seq<Byte>)
    ensures Tokens(body) == Meant(Walk(body)) <==> !Borrows(body)
  {
    TokensVersusMeant(body);
  }

  // ---------- The capability bytes of an encoded list ----------

  /** Every empty capability element is last, or its successor's tag has none of the three flag bits. */
  ghost predicate NoBorrowedFlags(gs: seq<Tlv>) {
    forall i :: 0 <= i < |gs| - 1 && gs[i].tag == 0x40 && gs[i].value == [] ==> gs[i + 1].tag < 0x20
  }

  lemma {:induction false} EncodeHead(gs: seq<Tlv>)
    requires Short(gs) && gs != [] && |Encode(gs)| > 2
    ensures Encode(gs)[0] == gs[0].tag && Next(Encode(gs)) == Encode(gs[1..])
    ensures gs[0].value != [] ==> Encode(gs)[2] == gs[0].value[0]
    ensures gs[0].value == [] ==> |gs| > 1 && Encode(gs)[2] == gs[1].tag
  {
    assert Encode(gs) == [gs[0].tag, |gs[0].value|] + gs[0].value + Encode(gs[1..]);
  }

  lemma EncodeLength(gs: seq<Tlv>)
    requires Short(gs) && gs != []
    ensures |Encode(gs)| <= 2 <==> |gs| == 1 && gs[0].value == []
  {
    if |gs| > 1 {
      assert gs[1..] != [];
    }
  }

  lemma {:induction false} NoBorrowedFlagsHead(gs: seq<Tlv>)
    requires gs != []
    ensures NoBorrowedFlags(gs) <==>
      && NoBorrowedFlags(gs[1..])
      && (|gs| > 1 && gs[0].tag == 0x40 && gs[0].value == [] ==> gs[1].tag < 0x20)
  {
    var t := gs[1..];
    if NoBorrowedFlags(gs) {
      forall i | 0 <= i < |t| - 1 && t[i].tag == 0x40 && t[i].value == [] ensures t[i + 1].tag < 0x20 {
        assert t[i] == gs[i + 1] && t[i + 1] == gs[i + 2];
      }
    }
    if NoBorrowedFlags(t) && (|gs| > 1 && gs[0].tag == 0x40 && gs[0].value == [] ==> gs[1].tag < 0x20) {
      forall i | 0 <= i < |gs| - 1 && gs[i].tag == 0x40 && gs[i].value == [] ensures gs[i + 1].tag < 0x20 {
        if i > 0 { assert gs[i] == t[i - 1] && gs[i + 1] == t[i]; }
      }
    }
  }

  lemma {:induction false} EncodedBorrows(gs: seq<Tlv>)
    requires Short(gs)
    ensures Borrows(Encode(gs)) <==> !NoBorrowedFlags(gs)
    decreases |gs|
  {
    if gs == [] {
    } else if |Encode(gs)| <= 2 {
      EncodeLength(gs);
    } else {
      EncodeHead(gs);
      NoBorrowedFlagsHead(gs);
      EncodedBorrows(gs[1..]);
    }
  }

  /** An empty last element has no tokens. */
  lemma {:induction false} MeantButLast(es: seq<Element>)
    requires es != [] && es[|es| - 1].value == []
    ensures Meant(es) == Meant(es[..|es| - 1])
    decreases |es|
  {
    var n := |es| - 1;
    if n > 0 {
      MeantButLast(es[1..]);
      assert es[1..][..n - 1] == es[..n][1..];
    }
  }

  lemma ElementsButLast(gs: seq<Tlv>)
    requires Short(gs) && gs != []
    ensures Elements(gs[..|gs| - 1]) == Elements(gs)[..|gs| - 1]
  {
  }

  /** So it does not matter that it is not seen. */
  lemma {:induction false} EncodedMeans(gs: seq<Tlv>)
    requires Short(gs)
    ensures Meant(Walk(Encode(gs))) == Meant(Elements(gs))
  {
    SeenAreWalked(gs);
    if !LastSeen(gs) {
      ElementsButLast(gs);
      MeantButLast(Elements(gs));
    }
  }

  /** For an encoded list that is: the tokens are those of its elements exactly when no empty
      capability element is followed by a tag with a flag bit. */
  lemma {:induction false} TokensIntendedIff(gs: seq<Tlv>)
    requires Short(gs)
    ensures Tokens(Encode(gs)) == Meant(Elements(gs)) <==> NoBorrowedFlags(gs)
  {
    TokensMeantIff(Encode(gs));
    EncodedBorrows(gs);
    EncodedMeans(gs);
  }

  const BORROWED: seq<Tlv> := [Tlv(0x40, []), Tlv(0x81, [0])]

  /** The condition can fail: an empty capability element before tag 0x81. */
  lemma {:induction false} BorrowedFlagExample()
    ensures Short(BORROWED) && Tokens(Encode(BORROWED)) != Meant(Elements(BORROWED))
  {
    assert BORROWED[0] == Tlv(0x40, []) && BORROWED[1].tag == 0x81;
    assert !NoBorrowedFlags(BORROWED);
    TokensIntendedIff(BORROWED);
  }

  // ---------- All three levels ----------

  /** The line of an element of the FCI template. */
  function ChildLine(e: Element): Item {
    if e.tag == 0x4f then Field("Application AID", e.value)
    else if e.tag == 0x73 then Discretionary(Meant(Walk(e.value)))
    else Unknown(e.tag, e.value)
  }

  function ChildLines(es: seq<Element>): seq<Item> {
    seq(|es|, i requires 0 <= i < |es| => ChildLine(es[i]))
  }

  /** The element is no application label, and no capability element in it borrows a flag. */
  predicate ChildFits(e: Element) {
    e.tag != 0x50 && (e.tag == 0x73 ==> !Borrows(e.value))
  }

  ghost predicate ChildrenFit(es: seq<Element>) {
    forall i :: 0 <= i < |es| ==> ChildFits(es[i])
  }

  lemma {:induction false} ChildIsRead(e: Element)
    ensures GidsFciLoop.Turn(e) == Ok([ChildLine(e)]) <==> ChildFits(e)
    ensures e.tag != 0x50 ==> GidsFciLoop.Turn(e).Ok? && |GidsFciLoop.Turn(e).value| == 1
  {
    if e.tag == 0x73 { TokensMeantIff(e.value); }
  }

  lemma {:induction false} ChildrenCollect(es: seq<Element>)
    ensures Collect(GidsFciLoop, es) == Ok(ChildLines(es)) <==> ChildrenFit(es)
    decreases |es|
  {
    if es == [] {
    } else {
      ChildIsRead(es[0]);
      ChildrenCollect(es[1..]);
      assert ChildLines(es) == [ChildLine(es[0])] + ChildLines(es[1..]);
      assert ChildrenFit(es) <==> ChildFits(es[0]) && ChildrenFit(es[1..]) by { ChildrenFitHead(es); }
      HeadAndTail(Collect(GidsFciLoop, es), GidsFciLoop.Turn(es[0]), Collect(GidsFciLoop, es[1..]),
                  ChildLine(es[0]), ChildLines(es[1..]));
    }
  }

  lemma {:induction false} ChildrenFitHead(es: seq<Element>)
    requires es != []
    ensures ChildrenFit(es) <==> ChildFits(es[0]) && ChildrenFit(es[1..])
  {
    if ChildFits(es[0]) && ChildrenFit(es[1..]) {
      forall i | 0 <= i < |es| ensures ChildFits(es[i]) {
        if i > 0 { assert ChildFits(es[1..][i - 1]); }
      }
    }
  }

  /** One line in front of others. */
  lemma HeadAndTail(whole: Reading, first: Reading, more: Reading, line: Item, lines: seq<Item>)
    requires whole == match first case Err(e) => Err(e) case Ok(items) => After(items, more)
    requires first.Ok? ==> |first.value| == 1
    ensures whole == Ok([line] + lines) <==> first == Ok([line]) && more == Ok(lines)
  {
    if first.Ok? && more.Ok? {
      var f := first.value;
      assert f == [f[0]];
      assert (f + more.value)[0] == f[0] && (f + more.value)[1..] == more.value;
      assert ([line] + lines)[0] == line && ([line] + lines)[1..] == lines;
    }
  }

  /** On any bytes: an FCI response is read as its elements, through its three levels, exactly when
      none is an application label or borrows a flag for an empty capability element. */
  lemma {:induction false} FciIsRead(body: seq<Byte>)
    requires |body| >= 2 && body[0] == 0x61
    ensures GidsFci(body) == Ok([Heading("FCI")] + ChildLines(Walk(Payload(body))))
       <==> ChildrenFit(Walk(Payload(body)))
  {
    var es := Walk(Payload(body));
    ChildrenCollect(es);
    HeadingIsApart(Collect(GidsFciLoop, es), ChildLines(es));
  }

  /** The groups are the grandchildren of the discretionary children. */
  ghost predicate Grouped(xs: seq<Tlv>, groups: seq<seq<Tlv>>) {
    && |groups| == |xs|
    && forall i :: 0 <= i < |xs| && xs[i].tag == 0x73 ==> Short(groups[i]) && xs[i].value == Encode(groups[i])
  }

  /** The element at i of an encoded template fits, in terms of what was encoded. */
  ghost predicate EncodedFits(xs: seq<Tlv>, groups: seq<seq<Tlv>>, i: nat)
    requires i < |xs| == |groups|
  {
    xs[i].tag != 0x50 && (xs[i].tag == 0x73 ==> NoBorrowedFlags(groups[i]))
  }

  /** So an encoded template is read back as what was encoded: every child the loop sees with its own
      value, and the discretionary ones with the tokens of their own grandchildren. */
  lemma {:induction false} FciTemplateIsRead(xs: seq<Tlv>, groups: seq<seq<Tlv>>)
    requires Short(xs) && |Encode(xs)| < 256 && Grouped(xs, groups)
    ensures Short(Seen(xs)) && |Seen(xs)| <= |xs|
    ensures GidsFci(Template(0x61, xs)) == Ok([Heading("FCI")] + ChildLines(Elements(Seen(xs))))
       <==> forall i :: 0 <= i < |Seen(xs)| ==> EncodedFits(xs, groups, i)
    ensures forall i :: 0 <= i < |Seen(xs)| && xs[i].tag == 0x73 ==>
      ChildLines(Elements(Seen(xs)))[i] == Discretionary(Meant(Elements(groups[i])))
  {
    TemplatePayload(0x61, xs);
    SeenAreWalked(xs);
    FciIsRead(Template(0x61, xs));
    var es := Elements(Seen(xs));
    forall i | 0 <= i < |es|
      ensures ChildFits(es[i]) <==> EncodedFits(xs, groups, i)
      ensures xs[i].tag == 0x73 ==> ChildLine(es[i]) == Discretionary(Meant(Elements(groups[i])))
    {
      assert es[i] == Element(xs[i].tag, |xs[i].value|, xs[i].value);
      if xs[i].tag == 0x73 {
        EncodedBorrows(groups[i]);
        EncodedMeans(groups[i]);
      }
    }
  }

  lemma HeadingIsApart(r: Reading, lines: seq<Item>)
    ensures After([Heading("FCI")], r) == Ok([Heading("FCI")] + lines) <==> r == Ok(lines)
  {
    if r.Ok? {
      assert ([Heading("FCI")] + r.value)[1..] == r.value && ([Heading("FCI")] + lines)[1..] == lines;
    }
  }

  const LABEL: seq<Tlv> := [Tlv(0x50, [0x41])]
  const DF_NAME: seq<Tlv> := [Tlv(0x84, [0xa0])]

  /** An application label ends the reading of an FCI template, a DF name that of an FCP template. */
  lemma LabelAndNameExample()
    ensures Short(LABEL) && |Encode(LABEL)| < 256 && GidsFci(Template(0x61, LABEL)) == Err(NotText)
    ensures Short(DF_NAME) && |Encode(DF_NAME)| < 256 && GidsFcp(Template(0x62, DF_NAME)) == Err(NotText)
  {
    OneElement(LABEL[0]);
    OneElement(DF_NAME[0]);
    assert LABEL == [LABEL[0]] && DF_NAME == [DF_NAME[0]];
    TemplatePayload(0x61, LABEL);
    TemplatePayload(0x62, DF_NAME);
  }

  /** An element with a tag it does not know ends the reading of a PIV card's FCI. */
  lemma UnknownTagExample(utf8: Utf8)
    ensures PivSelect(utf8, FCI, [0x61, 3, 0x81, 1, 0]) == Err(UnboundLocal)
  {
    var body: seq<Byte> := [0x61, 3, 0x81, 1, 0];
    assert Payload(body) == [0x81, 1, 0];
    assert Walk(Payload(body))[0].tag == 0x81;
  }

  lemma OneElement(x: Tlv)
    requires 0 < |x.value| < 256
    ensures Short([x]) && |Encode([x])| == 2 + |x.value|
    ensures Walk(Encode([x])) == [Element(x.tag, |x.value|, x.value)]
  {
    RoundTrip([x]);
    assert Encode([x]) == [x.tag, |x.value|] + x.value;
  }
}
