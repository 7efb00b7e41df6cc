/**
 The two-level tagged hash of `scripts/LECHash.c` and `scripts/LOMHash.c`, stated once.

 One table of 16-bit words holds, in the same array, primary cells (an index in the low bits,
 a tag in the bits above) and overflow cells (a bare index).  Both programs are the same scheme
 with other widths, hash functions and overflow slots, so those are the fields of `Scheme`.
 */
module TaggedHash {
  import opened Options

  /** The initial contents of every cell. */
  const EMPTY: bv16 := 0xffff

  datatype Scheme = Scheme(
    isCode: bv16 -> bool,                 // the keys the program gives a meaning to
    room: nat,                            // how many indices there are
    size: nat,                            // the number of cells
    idx: nat -> bv16,                     // an int index converted to 16 bits
    hash: bv16 -> nat,                    // the bucket of a key
    slot: bv16 -> Option<nat>,            // tab[minihash(key)]; None when minihash is outside tab
    lone: bv16 -> bv16,                   // the primary cell of an index that is alone in its bucket
    retag: (bv16, bv16) -> bv16,          // what a second code of the bucket does to that cell
    tagsDiffer: (bv16, bv16) -> bool,     // the test of the lookup, on a cell and a key
    low: bv16 -> bv16,                    // what the lookup returns of a primary cell
    result: bv16 -> bv16,                 // what it returns of an overflow cell: a narrowing
    tag: bv16 -> bv16)                    // the bits the test compares (for the proofs only)
  {
    /** The bucket and the slot of a code are in the table. */
    ghost predicate CodeFits(c: bv16) {
      isCode(c) ==> hash(c) < size && (slot(c).Some? ==> slot(c).value < size)
    }

    /** Within a bucket the tag determines the code. */
    ghost predicate TagDecides(a: bv16, b: bv16) {
      isCode(a) && isCode(b) && hash(a) == hash(b) && tag(a) == tag(b) ==> a == b
    }

    /** The lookup's test compares tags; retagging and narrowing leave the index bits alone. */
    ghost predicate MasksFit(w: bv16, key: bv16) {
      && (tagsDiffer(w, key) <==> tag(w) != tag(key))
      && low(retag(w, key)) == low(w)
      && low(result(w)) == low(w)
    }

    /** The index bits of the cells that hold i, and the tags they take. */
    ghost predicate IndexFits(i: nat, c: bv16)
      {
      var w := idx(i);
      && low(w) == w && result(w) == w && low(lone(w)) == w
      && (isCode(c) ==> tag(lone(w)) != tag(c))
      && (isCode(c) ==> tag(retag(lone(w), c)) == tag(c))
      && (isCode(c) ==> tag(retag(w, c)) != tag(c))
    }

    /** Indices are told apart, and only the last one can look like an empty cell. */
    ghost predicate IndicesApart(i: nat, j: nat)
    {
      && (idx(i) == idx(j) ==> i == j)
      && (low(EMPTY) == idx(i) ==> i == room - 1)
    }

    /** What the proofs need of the widths and of the hash; both programs meet it. */
    ghost predicate WellFormed() {
      && (forall c :: CodeFits(c))
      && (forall a, b :: TagDecides(a, b))
      && (forall w, key :: MasksFit(w, key))
      && (forall i, c :: 0 <= i < room ==> IndexFits(i, c))
      && (forall i, j :: 0 <= i < room && 0 <= j < room ==> IndicesApart(i, j))
    }
  }

  // ---------- The operations, on table values ----------

  /** One turn of the build loop; None is an access outside the table or outside `tab`. */
  function Insert(s: Scheme, t: seq<bv16>, code: bv16, i: nat): (r: Option<seq<bv16>>)
    ensures r.Some? ==> |r.value| == |t|
  {
    var h := s.hash(code);
    if h >= |t| then None
    else if t[h] != EMPTY then
      match s.slot(code)
      case None => None
      case Some(q) =>
        if q >= |t| then None else Some(t[h := s.retag(t[h], code)][q := s.idx(i)])
    else
      Some(t[h := s.lone(s.idx(i))])
  }

  /** The table before the build loop. */
  function AllEmpty(size: nat): (t: seq<bv16>)
    ensures |t| == size && forall q :: 0 <= q < size ==> t[q] == EMPTY
  {
    seq(size, _ => EMPTY)
  }

  /** The table after the first n turns of the build loop. */
  function BuildTo(s: Scheme, codes: seq<bv16>, n: nat): (r: Option<seq<bv16>>)
    requires n <= |codes|
    ensures r.Some? ==> |r.value| == s.size
    decreases n
  {
    if n == 0 then Some(AllEmpty(s.size))
    else
      match BuildTo(s, codes, n - 1)
      case None => None
      case Some(t) => Insert(s, t, codes[n - 1], n - 1)
  }

  /** The lookup; None is an access outside the table or outside `tab`. */
  function Lookup(s: Scheme, t: seq<bv16>, key: bv16): Option<bv16>
  {
    var h := s.hash(key);
    if h >= |t| then None
    else if s.tagsDiffer(t[h], key) then Some(s.low(t[h]))
    else
      match s.slot(key)
      case None => None
      case Some(q) => if q >= |t| then None else Some(s.result(t[q]))
  }

  // ---------- When the table can be built ----------

  ghost predicate Codes(s: Scheme, codes: seq<bv16>) {
    && |codes| <= s.room
    && forall i :: 0 <= i < |codes| ==> s.isCode(codes[i])
  }

  /** The bucket of a code. */
  function H(s: Scheme, codes: seq<bv16>, i: nat): nat
    requires i < |codes|
  {
    s.hash(codes[i])
  }

  /** The overflow slot of a code. */
  function Q(s: Scheme, codes: seq<bv16>, i: nat): Option<nat>
    requires i < |codes|
  {
    s.slot(codes[i])
  }

  /** An earlier code is in the same bucket. */
  ghost predicate Second(s: Scheme, codes: seq<bv16>, i: nat)
    requires i < |codes|
  {
    exists j :: 0 <= j < i && H(s, codes, j) == H(s, codes, i)
  }

  ghost predicate Distinct(codes: seq<bv16>) {
    forall i, j :: 0 <= i < j < |codes| ==> codes[i] != codes[j]
  }

  predicate Together(s: Scheme, codes: seq<bv16>, i: nat, j: nat, k: nat)
    requires i < |codes| && j < |codes| && k < |codes|
  {
    H(s, codes, i) == H(s, codes, j) == H(s, codes, k)
  }

  ghost predicate AtMostTwoPerBucket(s: Scheme, codes: seq<bv16>) {
    forall i, j, k :: 0 <= i < j < k < |codes| ==> !Together(s, codes, i, j, k)
  }

  ghost predicate SlotsInTab(s: Scheme, codes: seq<bv16>) {
    forall i :: 0 <= i < |codes| && Second(s, codes, i) ==> Q(s, codes, i).Some?
  }

  ghost predicate SlotsApart(s: Scheme, codes: seq<bv16>) {
    forall i, j :: 0 <= i < j < |codes| && Second(s, codes, i) && Second(s, codes, j) ==>
      Q(s, codes, i) != Q(s, codes, j)
  }

  ghost predicate SlotsFree(s: Scheme, codes: seq<bv16>) {
    forall i, j :: 0 <= i < |codes| && 0 <= j < |codes| && Second(s, codes, i) ==>
      Q(s, codes, i) != Some(H(s, codes, j))
  }

  /** A condition on the codes alone; it mentions no table. */
  ghost predicate Admissible(s: Scheme, codes: seq<bv16>) {
    && Distinct(codes)
    && AtMostTwoPerBucket(s, codes)
    && SlotsInTab(s, codes)
    && SlotsApart(s, codes)
    && SlotsFree(s, codes)
  }

  /** After n turns every code inserted so far looks up to its own index. */
  ghost predicate InvertsTo(s: Scheme, codes: seq<bv16>, n: nat)
    requires n <= |codes|
  {
    && BuildTo(s, codes, n).Some?
    && forall i :: 0 <= i < n ==> Finds(s, BuildTo(s, codes, n).value, codes, i)
  }

  /** Code i looks up to its own index. */
  predicate Finds(s: Scheme, t: seq<bv16>, codes: seq<bv16>, i: nat)
    requires i < |codes|
  {
    Lookup(s, t, codes[i]) == Some(s.idx(i))
  }

}
