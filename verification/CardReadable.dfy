/** Which bodies the loops read without an exception, by guards on the bytes. */
module CardReadable {
  import opened Options
  import opened Tlv
  import opened CardData

  /** The turn of the loop raises no exception. */
  predicate Readable(loop: Loop, e: Element) { loop.Turn(e).Ok? }

  /** A loop raises an exception exactly when one of the elements it visits does; otherwise its
      lines are those of the elements, in order. */
  lemma {:induction false} CollectAll(loop: Loop, es: seq<Element>)
    ensures Collect(loop, es).Ok? <==> forall i :: 0 <= i < |es| ==> Readable(loop, es[i])
    ensures Collect(loop, es).Ok? ==> Collect(loop, es).value == Lines(loop, es)
    decreases |es|
  {
    if es == [] {
    } else {
      CollectAll(loop, es[1..]);
      assert forall i :: 1 <= i < |es| ==> es[i] == es[1..][i - 1];
      assert Collect(loop, es[1..]).Ok? <==> forall i :: 1 <= i < |es| ==> Readable(loop, es[i]);
    }
  }

  /** The lines of the elements that have any. */
  function Lines(loop: Loop, es: seq<Element>): seq<Item>
    decreases |es|
  {
    if es == [] then []
    else (match loop.Turn(es[0]) case Ok(items) => items case Err(_) => []) + Lines(loop, es[1..])
  }

  // ---------- Guards ----------

  /** An element the FCI loop of a PIV card knows how to print. */
  predicate KnownPivElement(utf8: Utf8, e: Element) {
    || e.tag == 0x4f
    || e.tag == 0xac
    || (e.tag == 0x79 && |e.value| >= 2)
    || (e.tag == 0x50 && utf8(e.value))
  }

  ghost predicate AllKnown(utf8: Utf8, es: seq<Element>) {
    forall i :: 0 <= i < |es| ==> KnownPivElement(utf8, es[i])
  }

  ghost predicate NoTag(es: seq<Element>, tag: Byte) {
    forall i :: 0 <= i < |es| ==> es[i].tag != tag
  }

  /** Every expiration date is text. */
  ghost predicate DatesDecode(utf8: Utf8, es: seq<Element>) {
    forall i :: 0 <= i < |es| && es[i].tag == 0x35 ==> utf8(es[i].value)
  }

  /** A PIV response to SELECT: a header, and for FCI only elements the loop knows. */
  ghost predicate PivSelectFits(utf8: Utf8, selectT: SelectType, body: seq<Byte>) {
    |body| >= 2 && (selectT == FCI ==> AllKnown(utf8, Walk(Payload(body))))
  }

  /** A PIV response to GET DATA: nothing at all, or a header, and for the card holder decodable dates. */
  ghost predicate PivDataFits(utf8: Utf8, lastGet: Option<seq<Byte>>, body: seq<Byte>) {
    body == [] ||
    (|body| >= 2 && (lastGet == Some(CARD_HOLDER_UNIQUE_ID) ==> DatesDecode(utf8, Walk(Payload(body)))))
  }

  /** A GIDS FCP template: a header and no DF name. */
  ghost predicate FcpFits(body: seq<Byte>) {
    |body| >= 2 && (body[0] == 0x62 ==> NoTag(Walk(Payload(body)), 0x84))
  }

  /** A GIDS FCI template: a header and no application label. */
  ghost predicate FciFits(body: seq<Byte>) {
    |body| >= 2 && (body[0] == 0x61 ==> NoTag(Walk(Payload(body)), 0x50))
  }

  lemma {:induction false} KnownAreRead(utf8: Utf8, selectT: SelectType, es: seq<Element>)
    ensures Collect(PivSelectLoop(utf8, selectT), es).Ok? <==> (selectT == FCI ==> AllKnown(utf8, es))
  {
    var loop := PivSelectLoop(utf8, selectT);
    CollectAll(loop, es);
    if selectT == FCI ==> AllKnown(utf8, es) {
      forall i | 0 <= i < |es| ensures Readable(loop, es[i]) {
        assert selectT == FCI ==> KnownPivElement(utf8, es[i]);
      }
    }
    if selectT == FCI && Collect(loop, es).Ok? {
      forall i | 0 <= i < |es| ensures KnownPivElement(utf8, es[i]) { assert Readable(loop, es[i]); }
    }
  }

  lemma {:induction false} DatesAreRead(utf8: Utf8, lastGet: Option<seq<Byte>>, es: seq<Element>)
    ensures Collect(PivDataLoop(utf8, lastGet), es).Ok? <==>
      (lastGet == Some(CARD_HOLDER_UNIQUE_ID) ==> DatesDecode(utf8, es))
  {
    var loop := PivDataLoop(utf8, lastGet);
    CollectAll(loop, es);
    if lastGet == Some(CARD_HOLDER_UNIQUE_ID) ==> DatesDecode(utf8, es) {
      forall i | 0 <= i < |es| ensures Readable(loop, es[i]) {
        assert lastGet == Some(CARD_HOLDER_UNIQUE_ID) && es[i].tag == 0x35 ==> utf8(es[i].value);
      }
    }
    if lastGet == Some(CARD_HOLDER_UNIQUE_ID) && Collect(loop, es).Ok? {
      forall i | 0 <= i < |es| && es[i].tag == 0x35 ensures utf8(es[i].value) { assert Readable(loop, es[i]); }
    }
  }

  lemma {:induction false} OtherTagsAreRead(loop: Loop, tag: Byte, es: seq<Element>)
    requires (loop.GidsFcpLoop? && tag == 0x84) || (loop.GidsFciLoop? && tag == 0x50)
    ensures Collect(loop, es).Ok? <==> NoTag(es, tag)
  {
    CollectAll(loop, es);
    if NoTag(es, tag) {
      forall i | 0 <= i < |es| ensures Readable(loop, es[i]) { assert es[i].tag != tag; }
    }
    if Collect(loop, es).Ok? {
      forall i | 0 <= i < |es| ensures es[i].tag != tag { assert Readable(loop, es[i]); }
    }
  }

  // ---------- The four readings ----------

  lemma PivSelectReadable(utf8: Utf8, selectT: SelectType, body: seq<Byte>)
    ensures PivSelect(utf8, selectT, body).Ok? <==> PivSelectFits(utf8, selectT, body)
  {
    if |body| >= 2 { KnownAreRead(utf8, selectT, Walk(Payload(body))); }
  }

  lemma PivDataReadable(utf8: Utf8, lastGet: Option<seq<Byte>>, body: seq<Byte>)
    ensures PivData(utf8, lastGet, body).Ok? <==> PivDataFits(utf8, lastGet, body)
  {
    if |body| >= 2 { DatesAreRead(utf8, lastGet, Walk(Payload(body))); }
  }

  lemma GidsFcpReadable(body: seq<Byte>)
    ensures GidsFcp(body).Ok? <==> FcpFits(body)
  {
    if |body| >= 2 { OtherTagsAreRead(GidsFcpLoop, 0x84, Walk(Payload(body))); }
  }

  lemma GidsFciReadable(body: seq<Byte>)
    ensures GidsFci(body).Ok? <==> FciFits(body)
  {
    if |body| >= 2 { OtherTagsAreRead(GidsFciLoop, 0x50, Walk(Payload(body))); }
  }
}
