/**
 The 32 codes of `scripts/LOMHash.c` and the proof that its self-check reports nothing.  `Owner` and
 `Guest` are a certificate: the finished table as the build loop leaves it.
 */
module LomCodes {
  import opened Options
  import opened TaggedHash
  import opened HashCertificate
  import opened HashSufficiency
  import opened LomHash

  function Code0(i: nat): bv16 {
    match i
    case 0 => 0x0001 case 1 => 0x0000 case 2 => 0x0002 case 3 => 0x0009
    case 4 => 0x0006 case 5 => 0x0005 case 6 => 0x000d case 7 => 0x000b
    case _ => 0
  }

  function Code1(i: nat): bv16 {
    match i
    case 8 => 0x0003 case 9 => 0x001b case 10 => 0x0007 case 11 => 0x0017
    case 12 => 0x0037 case 13 => 0x000f case 14 => 0x004f case 15 => 0x006f
    case _ => 0
  }

  function Code2(i: nat): bv16 {
    match i
    case 16 => 0x002f case 17 => 0x00ef case 18 => 0x001f case 19 => 0x005f
    case 20 => 0x015f case 21 => 0x009f case 22 => 0x00df case 23 => 0x01df
    case _ => 0
  }

  function Code3(i: nat): bv16 {
    match i
    case 24 => 0x003f case 25 => 0x013f case 26 => 0x00bf case 27 => 0x01bf
    case 28 => 0x007f case 29 => 0x017f case 30 => 0x00ff case 31 => 0x01ff
    case _ => 0
  }

  /** The codes, by index. */
  function Code(i: nat): bv16 {
    if i <= 7 then Code0(i)
    else if i <= 15 then Code1(i)
    else if i <= 23 then Code2(i)
    else Code3(i)
  }

  function Owner0(q: nat): nat {
    match q
    case 0 => 1 case 1 => 0 case 2 => 2 case 3 => 8 case 4 => 14 case 5 => 5 case 6 => 4 case 7 => 10
    case _ => 0
  }

  function Owner1(q: nat): nat {
    match q
    case 8 => 17 case 9 => 3 case 10 => 21 case 11 => 7 case 12 => 15 case 13 => 6 case 14 => 16 case 15 => 13
    case _ => 0
  }

  function Owner2(q: nat): nat {
    match q
    case 16 => 31 case 17 => 23 case 18 => 27 case 19 => 25 case 20 => 29 case 21 => 20 case 22 => 12 case 23 => 11
    case _ => 0
  }

  function Owner3(q: nat): nat {
    match q
    case 24 => 30 case 25 => 22 case 26 => 26 case 27 => 9 case 28 => 28 case 29 => 19 case 30 => 24 case 31 => 18
    case _ => 0
  }

  /** The index stored in each used cell. */
  function Owner(q: nat): nat {
    if q <= 7 then Owner0(q)
    else if q <= 15 then Owner1(q)
    else if q <= 23 then Owner2(q)
    else Owner3(q)
  }

  /** The second index of each shared bucket. */
  function Guest(q: nat): nat {
    match q
    case 13 => 14 case 22 => 25 case 27 => 21
    case _ => 0
  }

  const HUFF_CODE_LOM: seq<bv16> := seq(32, i requires 0 <= i < 32 => Code(i))

  /** The three indices whose codes come second. */
  predicate IsSecond(i: nat) {
    i == 14 || i == 21 || i == 25
  }

  /** The code at i is stored in its bucket. */
  predicate AtHome(i: nat, c: bv16) {
    IsCode(c) && Owner(Bucket(c)) == i
  }

  /** The code at i is stored in its slot q; code j is the first of its bucket h. */
  predicate AtSlot(i: nat, c: bv16, j: nat, first: bv16, h: nat, q: nat) {
    && IsCode(c) && IsCode(first) && j < i && c != first
    && Bucket(c) == h && Bucket(first) == h && Owner(h) == j && Guest(h) == i
    && Slot(c) == Some(q) && Owner(q) == i
  }

  // ---------- The codes that come first in their buckets, row by row ----------

  lemma Home0(i: nat) requires 0 <= i < 8 ensures AtHome(i, Code0(i)) { }
  lemma Home1(i: nat) requires 8 <= i < 16 && !IsSecond(i) ensures AtHome(i, Code1(i)) { }
  lemma Home2(i: nat) requires 16 <= i < 24 && !IsSecond(i) ensures AtHome(i, Code2(i)) { }
  lemma Home3(i: nat) requires 24 <= i < 32 && !IsSecond(i) ensures AtHome(i, Code3(i)) { }

  lemma EveryHome(i: nat)
    requires i < 32 && !IsSecond(i)
    ensures AtHome(i, Code(i))
  {
    match i / 8
    case 0 => Home0(i); case 1 => Home1(i); case 2 => Home2(i); case _ => Home3(i);
  }

  // ---------- The codes that come second ----------

  lemma SharedBuckets()
    ensures Code(14) == 0x004f && Code(6) == 0x000d
    ensures Code(21) == 0x009f && Code(9) == 0x001b
    ensures Code(25) == 0x013f && Code(12) == 0x0037
  {
  }

  lemma Slot14()
    ensures AtSlot(14, 0x004f, 6, 0x000d, 13, 4)
  {
  }

  lemma Slot21()
    ensures AtSlot(21, 0x009f, 9, 0x001b, 27, 10)
  {
  }

  lemma Slot25()
    ensures AtSlot(25, 0x013f, 12, 0x0037, 22, 19)
  {
  }

  lemma EverySlot(i: nat) returns (j: nat, h: nat, q: nat)
    requires IsSecond(i)
    ensures AtSlot(i, Code(i), j, Code(j), h, q)
  {
    SharedBuckets();
    match i
    case 14 => Slot14(); j, h, q := 6, 13, 4;
    case 21 => Slot21(); j, h, q := 9, 27, 10;
    case _ => Slot25(); j, h, q := 12, 22, 19;
  }

  lemma EveryCodePlaced(i: nat)
    requires i < 32
    ensures Placed(Instance(), HUFF_CODE_LOM, Owner, Guest, i) && Instance().isCode(HUFF_CODE_LOM[i])
  {
    assert HUFF_CODE_LOM[i] == Code(i);
    if IsSecond(i) {
      var j, h, q := EverySlot(i);
      assert HUFF_CODE_LOM[j] == Code(j);
    } else {
      EveryHome(i);
    }
  }

  /** The program's own codes are admissible. */
  lemma AllAdmissible()
    ensures Admissible(Instance(), HUFF_CODE_LOM) && Codes(Instance(), HUFF_CODE_LOM)
  {
    forall i | 0 <= i < 32
      ensures Placed(Instance(), HUFF_CODE_LOM, Owner, Guest, i) && Instance().isCode(HUFF_CODE_LOM[i])
    {
      EveryCodePlaced(i);
    }
    CertifiedIsAdmissible(Instance(), HUFF_CODE_LOM, Owner, Guest);
  }

  /** So its self-check reports nothing: every code looks up to its index, at the end of the build
      and at every turn of it. */
  lemma SelfCheckPasses(n: nat)
    requires n <= 32
    ensures InvertsTo(Instance(), HUFF_CODE_LOM, n)
  {
    AllAdmissible();
    InstanceWellFormed();
    AdmissibleInverts(Instance(), HUFF_CODE_LOM, n);
  }
}
