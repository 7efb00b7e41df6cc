/** The widths, hash and overflow slots of `scripts/LOMHash.c`. */
module LomHash {
  import opened Options
  import opened Words
  import opened TaggedHash
  import opened HashTable
  import opened HashOccupancy

  predicate IsCode(key: bv16) { key < 0x400 }

  function Hash(key: bv16): bv16 {
    (key & 0x1f) ^ (key >> 5) ^ (key >> 9)
  }

  function MiniHash(key: bv16): bv16 {
    var h := (key >> 4) & 0xf;
    (h ^ (h >> 2) ^ (h >> 3)) & 0x3
  }

  function Bucket(key: bv16): nat { Hash(key) as nat }

  const TAB: seq<nat> := [0, 4, 10, 19]

  function Slot(key: bv16): Option<nat> {
    var m := MiniHash(key) as nat;
    if m < |TAB| then Some(TAB[m]) else None
  }

  function Lone(i: bv16): bv16 { i ^ 0xfe0 }

  function Retag(cell: bv16, code: bv16): bv16 { cell ^ ((code & 0xfe0) ^ 0xfe0) }

  predicate TagsDiffer(cell: bv16, huff: bv16) { (cell ^ huff) >> 5 != 0 }

  function Low(cell: bv16): bv16 { cell & 0x1f }

  /** The lookup returns a BYTE. */
  function Result(cell: bv16): bv16 { cell & 0xff }

  function Tag(w: bv16): bv16 { w & 0xffe0 }

  function Instance(): Scheme {
    Scheme(IsCode, 32, 32, Idx, Bucket, Slot, Lone, Retag, TagsDiffer, Low, Result, Tag)
  }

  lemma BitsBelow5(a: bv16, b: bv16)
    requires Hash(a) == Hash(b) && a & 0xffe0 == b & 0xffe0
    ensures a == b
  {
  }

  /** Two keys in one bucket with the same bits from 5 up are the same key. */
  lemma TagDeterminesKey(a: bv16, b: bv16)
    requires Bucket(a) == Bucket(b) && Tag(a) == Tag(b)
    ensures a == b
  {
    SameBucketSameHash(a, b);
    BitsBelow5(a, b);
  }

  lemma HashBelow32(key: bv16)
    requires key < 0x400
    ensures Hash(key) < 0x20
  {
  }

  lemma IndexWords(i: bv16, c: bv16)
    requires i < 0x20
    ensures Low(i) == i && Result(i) == i && Low(Lone(i)) == i
    ensures IsCode(c) ==> Tag(Lone(i)) != Tag(c)
    ensures IsCode(c) ==> Tag(Retag(Lone(i), c)) == Tag(c)
    ensures IsCode(c) ==> Tag(Retag(i, c)) != Tag(c)
    ensures Lone(i) != EMPTY && i != EMPTY
  {
  }

  lemma CellWords(h: bv16, key: bv16)
    ensures TagsDiffer(h, key) <==> Tag(h) != Tag(key)
    ensures Low(Retag(h, key)) == Low(h)
    ensures Low(Result(h)) == Low(h)
  {
  }

  lemma InstanceCodeFits(c: bv16)
    ensures Instance().CodeFits(c)
  {
    if IsCode(c) {
      HashBelow32(c);
      ValueBelow(Hash(c));
    }
  }

  lemma SameBucketSameHash(a: bv16, b: bv16)
    requires Bucket(a) == Bucket(b)
    ensures Hash(a) == Hash(b)
  {
    WordDeterminedByValue(Hash(a), Hash(b));
  }

  lemma InstanceTagDecides(a: bv16, b: bv16)
    ensures Instance().TagDecides(a, b)
  {
    if Bucket(a) == Bucket(b) && Tag(a) == Tag(b) {
      TagDeterminesKey(a, b);
    }
  }

  lemma InstanceIndexFits(i: nat, c: bv16)
    requires i < 32
    ensures Instance().IndexFits(i, c)
  {
    IdxBelow(i);
    IndexWords(Idx(i), c);
  }

  lemma InstanceIndicesApart(i: nat, j: nat)
    requires i < 32 && j < 32
    ensures Instance().IndicesApart(i, j)
  {
    IdxBelow(i);
    IdxBelow(j);
    LastIndex();
  }

  lemma LastIndex()
    ensures Low(EMPTY) as nat == 31
  {
  }

  lemma InstanceWellFormed()
    ensures Instance().WellFormed()
  {
    var s := Instance();
    forall c ensures s.CodeFits(c) { InstanceCodeFits(c); }
    forall a, b ensures s.TagDecides(a, b) { InstanceTagDecides(a, b); }
    forall w, key ensures s.MasksFit(w, key) { CellWords(w, key); }
    forall i, c | 0 <= i < s.room ensures s.IndexFits(i, c) { InstanceIndexFits(i, c); }
    forall i, j | 0 <= i < s.room && 0 <= j < s.room ensures s.IndicesApart(i, j) { InstanceIndicesApart(i, j); }
  }

  /** The theorem of the scheme at these widths: up to 32 codes below 0x400. */
  lemma InstanceInvertsIff(codes: seq<bv16>)
    requires |codes| <= 32 && forall i :: 0 <= i < |codes| ==> codes[i] < 0x400
    ensures InvertsTo(Instance(), codes, |codes|) <==> Admissible(Instance(), codes)
  {
    InstanceWellFormed();
    InvertsIffAdmissible(Instance(), codes);
  }

  /** 32 admissible codes fill the table. */
  lemma InstanceTableIsFull(codes: seq<bv16>)
    requires |codes| == 32 && Admissible(Instance(), codes)
    requires forall i :: 0 <= i < |codes| ==> codes[i] < 0x400
    ensures BuildTo(Instance(), codes, 32).Some?
    ensures forall q :: 0 <= q < 32 ==> BuildTo(Instance(), codes, 32).value[q] != EMPTY
  {
    InstanceWellFormed();
    forall i | 0 <= i < 32 ensures Shows(Instance(), i) {
      IdxBelow(i);
      IndexWords(Idx(i), 0);
    }
    FullTable(Instance(), codes);
  }
}
