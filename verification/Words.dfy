/** Conversions between table indices and 16-bit words. */
module Words {

  /** An int index converted to 16 bits. */
  function Idx(i: nat): bv16 {
    if i < 0x10000 then i as bv16 else (i % 0x10000) as bv16
  }

  lemma WordDeterminedByValue(a: bv16, b: bv16)
    requires a as nat == b as nat
    ensures a == b
  {
    assert (a as nat) as bv16 == a && (b as nat) as bv16 == b;
  }

  lemma ValueBelow(w: bv16)
    ensures w < 0x200 ==> w as nat < 512
    ensures w < 0x20 ==> w as nat < 32
  {
  }

  lemma WordBelow(w: bv16)
    ensures w as nat < 511 ==> w < 0x1ff
    ensures w as nat < 512 ==> w < 0x200
    ensures w as nat < 32 ==> w < 0x20
  {
  }

  lemma Successor(w: bv16)
    requires w < 0x1ff
    ensures (w + 1) as nat == w as nat + 1
  {
  }

  lemma ValueToWord(w: bv16)
    ensures (w as nat) as bv16 == w
  {
  }

  lemma IdxOfValue(w: bv16, i: nat)
    requires w as nat == i
    ensures Idx(i) == w
  {
    ValueToWord(w);
    assert Idx(i) == i as bv16;
  }

  lemma ZeroWord()
    ensures (0 as bv16) as nat == 0
  {
  }

  /** Every index below 512 is the value of a word. */
  lemma {:induction false} WordOf(i: nat) returns (w: bv16)
    requires i < 512
    ensures w as nat == i
  {
    if i == 0 {
      w := 0;
      ZeroWord();
    } else {
      w := WordOf(i - 1);
      WordBelow(w);
      Successor(w);
      w := w + 1;
    }
  }

  /** Indices below 512 survive the trip through a cell. */
  lemma IdxBelow(i: nat)
    requires i < 512
    ensures Idx(i) as nat == i && Idx(i) < 0x200
    ensures i < 32 ==> Idx(i) < 0x20
  {
    var w := WordOf(i);
    IdxOfValue(w, i);
    WordBelow(w);
  }
}
