/** The widths, hash and overflow slots of `scripts/LECHash.c`. */
module LecHash {
  import opened Options
  import opened Words
  import opened TaggedHash
  import opened HashTable
  import opened HashOccupancy

  function Hash(key: bv16): bv16 {
    (key & 0x1ff) ^ (key >> 9) ^ (key >> 4) ^ (key >> 7)
  }

  function MiniHash(key: bv16): bv16 {
    var h := (((key >> 8) ^ (key & 0xff)) >> 2) & 0xf;
    (if key >> 9 != 0 then !h else h) % 12
  }

  const TAB: seq<nat> := [511, 0, 508, 448, 494, 347, 486, 482]

  predicate IsCode(key: bv16) { key < 0x2000 }

  function Bucket(key: bv16): nat { Hash(key) as nat }

  /** The minihash ranges over 0..11, the table of slots has eight entries. */
  function Slot(key: bv16): Option<nat> {
    var m := MiniHash(key) as nat;
    if m < |TAB| then Some(TAB[m]) else None
  }

  function Lone(i: bv16): bv16 { i ^ 0xfe00 }

  function Retag(cell: bv16, code: bv16): bv16 { cell ^ ((code & 0xfe00) ^ 0xfe00) }

  predicate TagsDiffer(cell: bv16, huff: bv16) { (cell ^ huff) >> 9 != 0 }

  function Low(cell: bv16): bv16 { cell & 0x1ff }

  function Result(cell: bv16): bv16 { cell }

  function Tag(w: bv16): bv16 { w & 0xfe00 }

  function Instance(): Scheme {
    Scheme(IsCode, 512, 512, Idx, Bucket, Slot, Lone, Retag, TagsDiffer, Low, Result, Tag)
  }

  lemma BitsBelow9(a: bv16, b: bv16)
    requires Hash(a) == Hash(b) && a & 0xfe00 == b & 0xfe00
    ensures a & 0xffc0 == b & 0xffc0
  {
  }

  lemma BitsBelow6(a: bv16, b: bv16)
    requires Hash(a) == Hash(b) && a & 0xffc0 == b & 0xffc0
    ensures a & 0xfff8 == b & 0xfff8
  {
  }

  lemma BitsBelow3(a: bv16, b: bv16)
    requires Hash(a) == Hash(b) && a & 0xfff8 == b & 0xfff8
    ensures a == b
  {
  }

  /** Two keys in one bucket with one tag are the same key: the hash is triangular in the low
      nine bits, so they can be recovered from the top down. */
  lemma TagDeterminesKey(a: bv16, b: bv16)
    requires Hash(a) == Hash(b) && a & 0xfe00 == b & 0xfe00
    ensures a == b
  {
    BitsBelow9(a, b);
    BitsBelow6(a, b);
    BitsBelow3(a, b);
  }

  lemma HashBelow512(key: bv16)
    requires key < 0x2000
    ensures Hash(key) < 0x200
  {
  }

  lemma IndexWords(i: bv16, c: bv16)
    requires i < 0x200
    ensures Low(i) == i && Low(Lone(i)) == i
    ensures IsCode(c) ==> Tag(Lone(i)) != Tag(c)
    ensures IsCode(c) ==> Tag(Retag(Lone(i), c)) == Tag(c)
    ensures IsCode(c) ==> Tag(Retag(i, c)) != Tag(c)
  {
  }

  lemma CellWords(h: bv16, key: bv16)
    ensures TagsDiffer(h, key) <==> Tag(h) != Tag(key)
    ensures Low(Retag(h, key)) == Low(h)
    ensures Low(Result(h)) == Low(h)
  {
  }

  lemma InstanceWellFormed()
    ensures Instance().WellFormed()
  {
    var s := Instance();
    forall c ensures s.CodeFits(c) { InstanceCodeFits(c); }
    forall a, b ensures s.TagDecides(a, b) { InstanceTagDecides(a, b); }
    forall w, key ensures s.MasksFit(w, key) { CellWords(w, key); }
    forall i, c | 0 <= i < s.room ensures s.IndexFits(i, c) { InstanceIndexFits(i, c); }
    forall i, j | 0 <= i < s.room && 0 <= j < s.room ensures s.IndicesApart(i, j) { InstanceIndicesApart(i, j); }
  }

  /** The theorem of the scheme at these widths: up to 512 codes below 0x2000. */
  lemma InstanceInvertsIff(codes: seq<bv16>)
    requires |codes| <= 512 && forall i :: 0 <= i < |codes| ==> codes[i] < 0x2000
    ensures InvertsTo(Instance(), codes, |codes|) <==> Admissible(Instance(), codes)
  {
    InstanceWellFormed();
    InvertsIffAdmissible(Instance(), codes);
  }

  /** The first n of at most 511 admissible codes occupy exactly n cells. */
  lemma InstanceOneCellPerCode(codes: seq<bv16>, n: nat)
    requires n <= |codes| <= 511 && Admissible(Instance(), codes)
    requires forall i :: 0 <= i < |codes| ==> codes[i] < 0x2000
    ensures BuildTo(Instance(), codes, n).Some? && |Live(BuildTo(Instance(), codes, n).value)| == n
  {
    InstanceWellFormed();
    forall i | 0 <= i < n ensures Shows(Instance(), i) {
      IdxBelow(i);
      IndexShows(Idx(i));
    }
    OneCellPerCode(Instance(), codes, n);
  }

  lemma IndexShows(i: bv16)
    requires i as nat < 511
    ensures Lone(i) != EMPTY && i != EMPTY
  {
    WordBelow(i);
  }

  lemma InstanceCodeFits(c: bv16)
    ensures Instance().CodeFits(c)
  {
    if IsCode(c) {
      HashBelow512(c);
      ValueBelow(Hash(c));
    }
  }

  lemma SameBucketSameHash(a: bv16, b: bv16)
    requires Bucket(a) == Bucket(b)
    ensures Hash(a) == Hash(b)
  {
    WordDeterminedByValue(Hash(a), Hash(b));
  }

  lemma InstanceTagDecides(a: bv16, b: bv16)
    ensures Instance().TagDecides(a, b)
  {
    if Bucket(a) == Bucket(b) && Tag(a) == Tag(b) {
      SameBucketSameHash(a, b);
      TagDeterminesKey(a, b);
    }
  }

  lemma InstanceIndexFits(i: nat, c: bv16)
    requires i < 512
    ensures Instance().IndexFits(i, c)
  {
    IdxBelow(i);
    IndexWords(Idx(i), c);
  }

  lemma InstanceIndicesApart(i: nat, j: nat)
    requires i < 512 && j < 512
    ensures Instance().IndicesApart(i, j)
  {
    IdxBelow(i);
    IdxBelow(j);
    LastIndex();
  }

  lemma LastIndex()
    ensures Low(EMPTY) as nat == 511
  {
  }
}
