/**
 The tag-length-value loops of `tools/smartcard-interpreter.py`: one byte of tag, one byte of
 length, and a loop that runs while more than two bytes are left.
 */
module Tlv {
  type Byte = b: int | 0 <= b < 256

  /** The slice b[lo:hi], clamped to the bytes there are. */
  function Slice(b: seq<Byte>, lo: nat, hi: nat): seq<Byte> {
    if lo >= |b| || hi <= lo then [] else if hi > |b| then b[lo..] else b[lo..hi]
  }

  /** The slice b[lo:]. */
  function From(b: seq<Byte>, lo: nat): seq<Byte> {
    if lo >= |b| then [] else b[lo..]
  }

  /** What one turn of a loop sees: the header and the value, which may be cut short. */
  datatype Element = Element(tag: Byte, len: Byte, value: seq<Byte>)

  /** The bytes after the element at the head. */
  function Next(body: seq<Byte>): (next: seq<Byte>)
    requires |body| > 2
    ensures |next| < |body|
  {
    From(body, 2 + body[1] as nat)
  }

  /** The element at the head of the remaining bytes. */
  function Head(body: seq<Byte>): Element
    requires |body| > 2
  {
    Element(body[0], body[1], Slice(body, 2, 2 + body[1] as nat))
  }

  /** The elements the loop visits. */
  function Walk(body: seq<Byte>): seq<Element>
    decreases |body|
  {
    if |body| <= 2 then [] else [Head(body)] + Walk(Next(body))
  }

  /** The bytes the loop leaves behind. */
  function Rest(body: seq<Byte>): seq<Byte>
    decreases |body|
  {
    if |body| <= 2 then body else Rest(Next(body))
  }

  /** Headers and values put back together. */
  function Flatten(es: seq<Element>): seq<Byte>
    decreases |es|
  {
    if es == [] then [] else [es[0].tag, es[0].len] + es[0].value + Flatten(es[1..])
  }

  // ---------- Losslessness on arbitrary bytes ----------

  ghost predicate Complete(e: Element) { |e.value| == e.len }

  /** A reading of the bytes: nothing lost, nothing made up; only the last value may be cut short,
      and only because the bytes ran out; two bytes or fewer are left, and never fewer than three
      were left when an element was read. */
  ghost predicate Reads(body: seq<Byte>, es: seq<Element>, rest: seq<Byte>) {
    && body == Flatten(es) + rest
    && |rest| <= 2
    && (forall i :: 0 <= i < |es| - 1 ==> Complete(es[i]))
    && (es != [] ==> |es[|es| - 1].value| <= es[|es| - 1].len)
    && (es != [] && !Complete(es[|es| - 1]) ==> rest == [])
    && (es != [] ==> |es[|es| - 1].value| + |rest| > 0)
  }

  lemma HeadAndNext(body: seq<Byte>)
    requires |body| > 2
    ensures body == [Head(body).tag, Head(body).len] + Head(body).value + Next(body)
    ensures |Head(body).value| <= Head(body).len && |Head(body).value| + |Next(body)| > 0
    ensures !Complete(Head(body)) ==> Next(body) == []
  {
  }

  lemma FlattenCons(e: Element, es: seq<Element>)
    ensures Flatten([e] + es) == [e.tag, e.len] + e.value + Flatten(es)
  {
    assert ([e] + es)[1..] == es;
  }

  lemma FlattenEmpty(es: seq<Element>)
    ensures Flatten(es) == [] <==> es == []
  {
  }

  lemma {:induction false} ReadsCons(body: seq<Byte>, es: seq<Element>, rest: seq<Byte>)
    requires |body| > 2 && Reads(Next(body), es, rest)
    ensures Reads(body, [Head(body)] + es, rest)
  {
    var e := Head(body);
    var all := [e] + es;
    HeadAndNext(body);
    FlattenCons(e, es);
    FlattenEmpty(es);
    assert body == Flatten(all) + rest;
    forall i | 0 <= i < |all| - 1 ensures Complete(all[i]) {
      if i > 0 { assert all[i] == es[i - 1]; }
    }
    if es != [] { assert all[|all| - 1] == es[|es| - 1]; }
  }

  lemma {:induction false} ReadsUncons(body: seq<Byte>, es: seq<Element>, rest: seq<Byte>)
    requires Reads(body, es, rest) && es != []
    ensures |body| > 2 && es[0] == Head(body) && Reads(Next(body), es[1..], rest)
  {
    var e := es[0];
    var tail := es[1..];
    assert es == [e] + tail;
    FlattenCons(e, tail);
    FlattenEmpty(tail);
    var next := Flatten(tail) + rest;
    assert body == [e.tag, e.len] + e.value + next;
    if tail != [] {
      assert Complete(es[0]);
      assert tail[|tail| - 1] == es[|es| - 1];
    }
    assert |e.value| == e.len || next == [];
    HeadOfConcat(body, e, next);
    forall i | 0 <= i < |tail| - 1 ensures Complete(tail[i]) {
      assert Complete(es[i + 1]);
    }
  }

  lemma HeadOfConcat(body: seq<Byte>, e: Element, next: seq<Byte>)
    requires body == [e.tag, e.len] + e.value + next && |e.value| + |next| > 0
    requires |e.value| == e.len || (next == [] && |e.value| <= e.len)
    ensures |body| > 2 && Head(body) == e && Next(body) == next
  {
    assert body[0] == e.tag && body[1] == e.len;
  }

  lemma {:induction false} WalkReads(body: seq<Byte>)
    ensures Reads(body, Walk(body), Rest(body))
    decreases |body|
  {
    if |body| <= 2 {
      assert body == Flatten([]) + body;
    } else {
      WalkReads(Next(body));
      ReadsCons(body, Walk(Next(body)), Rest(Next(body)));
    }
  }

  /** There is only one reading, so the loop finds it. */
  lemma {:induction false} ReadingIsWalk(body: seq<Byte>, es: seq<Element>, rest: seq<Byte>)
    requires Reads(body, es, rest)
    ensures es == Walk(body) && rest == Rest(body)
    decreases |es|
  {
    if es == [] {
      assert body == rest;
    } else {
      ReadsUncons(body, es, rest);
      ReadingIsWalk(Next(body), es[1..], rest);
      assert es == [es[0]] + es[1..];
    }
  }

  /** The loop is the one reading of the bytes. */
  lemma WalkIsTheReading(body: seq<Byte>, es: seq<Element>, rest: seq<Byte>)
    ensures Reads(body, es, rest) <==> es == Walk(body) && rest == Rest(body)
  {
    WalkReads(body);
    if Reads(body, es, rest) {
      ReadingIsWalk(body, es, rest);
    }
  }

  // ---------- Round trip ----------

  /** A tag and a value to be encoded; the length must fit one byte. */
  datatype Tlv = Tlv(tag: Byte, value: seq<Byte>)

  ghost predicate Short(xs: seq<Tlv>) {
    forall i :: 0 <= i < |xs| ==> |xs[i].value| < 256
  }

  function Encode(xs: seq<Tlv>): seq<Byte>
    requires Short(xs)
  {
    if xs == [] then [] else [xs[0].tag, |xs[0].value|] + xs[0].value + Encode(xs[1..])
  }

  function Elements(xs: seq<Tlv>): (es: seq<Element>)
    requires Short(xs)
    ensures |es| == |xs|
    ensures forall i :: 0 <= i < |xs| ==> es[i] == Element(xs[i].tag, |xs[i].value|, xs[i].value)
  {
    if xs == [] then [] else [Element(xs[0].tag, |xs[0].value|, xs[0].value)] + Elements(xs[1..])
  }

  /** The loop stops at two bytes, so it does not see a last element without a value. */
  predicate LastSeen(xs: seq<Tlv>) {
    xs == [] || xs[|xs| - 1].value != []
  }

  lemma {:induction false} EncodeFlattens(xs: seq<Tlv>)
    requires Short(xs)
    ensures Encode(xs) == Flatten(Elements(xs))
    decreases |xs|
  {
    if xs == [] {
    } else {
      EncodeFlattens(xs[1..]);
      assert Elements(xs)[1..] == Elements(xs[1..]);
    }
  }

  lemma {:induction false} EncodeAppend(xs: seq<Tlv>, x: Tlv)
    requires Short(xs) && Short([x])
    ensures Encode(xs + [x]) == Encode(xs) + Encode([x])
    decreases |xs|
  {
    if xs == [] {
      assert xs + [x] == [x];
    } else {
      EncodeAppend(xs[1..], x);
      assert (xs + [x])[1..] == xs[1..] + [x];
    }
  }

  /** Walking an encoding visits exactly the list. */
  lemma {:induction false} RoundTrip(xs: seq<Tlv>)
    requires Short(xs) && LastSeen(xs)
    ensures Walk(Encode(xs)) == Elements(xs) && Rest(Encode(xs)) == []
  {
    EncodeFlattens(xs);
    ReadingIsWalk(Encode(xs), Elements(xs), []);
  }

  /** A last element without a value is left behind, and nothing else is. */
  lemma {:induction false} RoundTripButLast(xs: seq<Tlv>, x: Tlv)
    requires Short(xs) && x.value == []
    ensures Short(xs + [x])
    ensures Walk(Encode(xs + [x])) == Elements(xs) && Rest(Encode(xs + [x])) == [x.tag, 0]
  {
    EncodeAppend(xs, x);
    EncodeFlattens(xs);
    assert Encode([x]) == [x.tag, 0];
    ReadingIsWalk(Encode(xs + [x]), Elements(xs), [x.tag, 0]);
  }

  /** The elements of an encoded list that the loop sees. */
  function Seen(xs: seq<Tlv>): (seen: seq<Tlv>)
    ensures seen <= xs && |xs| - 1 <= |seen|
  {
    if LastSeen(xs) then xs else xs[..|xs| - 1]
  }

  /** Walking the encoding of any list visits the elements it sees, each with its own value. */
  lemma {:induction false} SeenAreWalked(xs: seq<Tlv>)
    requires Short(xs)
    ensures Short(Seen(xs)) && Walk(Encode(xs)) == Elements(Seen(xs))
  {
    if LastSeen(xs) {
      RoundTrip(xs);
    } else {
      var n := |xs| - 1;
      assert xs == xs[..n] + [xs[n]];
      RoundTripButLast(xs[..n], xs[n]);
    }
  }

  /** So the list comes back whole exactly when its last value is not empty. */
  lemma {:induction false} WholeIffLastSeen(xs: seq<Tlv>)
    requires Short(xs)
    ensures Walk(Encode(xs)) == Elements(xs) <==> LastSeen(xs)
  {
    SeenAreWalked(xs);
  }
}
