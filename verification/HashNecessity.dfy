/**
 If the build loop succeeds and its table inverts the codes then the codes were admissible.

 The argument follows the writes.  Every index is written into one cell, its place; the low bits
 of a cell are always those of the last index written there; so an index that can still be looked
 up at the end was the last one written at its place.
 */
module HashNecessity {
  import opened Options
  import opened TaggedHash

  ghost predicate Builds(s: Scheme, codes: seq<bv16>, n: nat) {
    n <= |codes| <= s.room && BuildTo(s, codes, n).Some?
  }

  /** The table after n turns. */
  ghost function Table(s: Scheme, codes: seq<bv16>, n: nat): (t: seq<bv16>)
    requires Builds(s, codes, n)
  {
    BuildTo(s, codes, n).value
  }

  lemma {:induction false} BuildsBefore(s: Scheme, codes: seq<bv16>, m: nat, n: nat)
    requires m <= n && Builds(s, codes, n)
    ensures Builds(s, codes, m)
    decreases n
  {
    if m == n {
    } else {
      BuildsBefore(s, codes, m, n - 1);
    }
  }

  /** The bucket of code i is occupied when its turn comes. */
  ghost predicate Collides(s: Scheme, codes: seq<bv16>, i: nat)
    requires Builds(s, codes, i + 1)
  {
    BuildsBefore(s, codes, i, i + 1);
    Table(s, codes, i)[H(s, codes, i)] != EMPTY
  }

  /** The cell into which turn i writes the index i. */
  ghost function Place(s: Scheme, codes: seq<bv16>, i: nat): (q: nat)
    requires Builds(s, codes, i + 1)
    ensures q < s.size
  {
    BuildsBefore(s, codes, i, i + 1);
    if Collides(s, codes, i) then Q(s, codes, i).value else H(s, codes, i)
  }

  /** The last index written into a cell. */
  ghost function Owner(s: Scheme, codes: seq<bv16>, n: nat, q: nat): (o: Option<nat>)
    requires Builds(s, codes, n)
    ensures o.Some? ==> o.value < n && Builds(s, codes, o.value + 1) && Place(s, codes, o.value) == q
    decreases n
  {
    if n == 0 then None
    else
      BuildsBefore(s, codes, n - 1, n);
      if Place(s, codes, n - 1) == q then Some(n - 1) else Owner(s, codes, n - 1, q)
  }

  /** What a turn does to the cells. */
  lemma Turn(s: Scheme, codes: seq<bv16>, n: nat, q: nat)
    requires n > 0 && Builds(s, codes, n) && q < s.size
    ensures Builds(s, codes, n - 1)
    ensures
      var c := codes[n - 1];
      Table(s, codes, n)[q] ==
        if q == Place(s, codes, n - 1) then
          if Collides(s, codes, n - 1) then s.idx(n - 1) else s.lone(s.idx(n - 1))
        else if q == H(s, codes, n - 1) then s.retag(Table(s, codes, n - 1)[q], c)
        else Table(s, codes, n - 1)[q]
  {
    BuildsBefore(s, codes, n - 1, n);
  }

  /** A cell without an owner is empty; the low bits of another are its owner's index. */
  lemma {:induction false} OwnerHoldsCell(s: Scheme, codes: seq<bv16>, n: nat, q: nat)
    requires s.WellFormed() && Builds(s, codes, n) && q < s.size
    ensures
      match Owner(s, codes, n, q)
      case None => Table(s, codes, n)[q] == EMPTY
      case Some(i) => s.low(Table(s, codes, n)[q]) == s.idx(i)
    decreases n
  {
    if n == 0 {
    } else {
      Turn(s, codes, n, q);
      OwnerHoldsCell(s, codes, n - 1, q);
      assert s.IndexFits(n - 1, codes[n - 1]);
      assert s.MasksFit(Table(s, codes, n - 1)[q], codes[n - 1]);
    }
  }

  /** While turns remain, an owned cell does not look empty. */
  lemma OwnedIsLive(s: Scheme, codes: seq<bv16>, n: nat, q: nat)
    requires s.WellFormed() && Builds(s, codes, n) && n < |codes| && q < s.size
    ensures Owner(s, codes, n, q).Some? <==> Table(s, codes, n)[q] != EMPTY
  {
    OwnerHoldsCell(s, codes, n, q);
    var o := Owner(s, codes, n, q);
    if o.Some? {
      assert s.IndicesApart(o.value, o.value);
    }
  }

  lemma {:induction false} OwnedStaysOwned(s: Scheme, codes: seq<bv16>, m: nat, n: nat, q: nat)
    requires m <= n && Builds(s, codes, n) && Builds(s, codes, m)
    requires Owner(s, codes, m, q).Some?
    ensures Owner(s, codes, n, q).Some?
    decreases n
  {
    if m == n {
    } else {
      BuildsBefore(s, codes, n - 1, n);
      OwnedStaysOwned(s, codes, m, n - 1, q);
    }
  }

  // ---------- Runs whose table inverts the codes ----------

  ghost predicate Inverts(s: Scheme, codes: seq<bv16>) {
    && s.WellFormed() && Codes(s, codes)
    && InvertsTo(s, codes, |codes|)
  }

  lemma AllBuild(s: Scheme, codes: seq<bv16>)
    requires Inverts(s, codes)
    ensures forall n :: 0 <= n <= |codes| ==> Builds(s, codes, n)
  {
    forall n | 0 <= n <= |codes| ensures Builds(s, codes, n) {
      BuildsBefore(s, codes, n, |codes|);
    }
  }

  /** Which cell the lookup of a code reads, and what is in it. */
  lemma CellRead(s: Scheme, codes: seq<bv16>, i: nat) returns (q: nat)
    requires Inverts(s, codes) && i < |codes|
    ensures Builds(s, codes, |codes|)
    ensures H(s, codes, i) < s.size
    ensures q < s.size && s.low(Table(s, codes, |codes|)[q]) == s.idx(i)
    ensures if s.tag(Table(s, codes, |codes|)[H(s, codes, i)]) == s.tag(codes[i])
            then Q(s, codes, i) == Some(q) else q == H(s, codes, i)
  {
    var t := Table(s, codes, |codes|);
    var h := H(s, codes, i);
    assert Finds(s, t, codes, i);
    assert Lookup(s, t, codes[i]).Some?;
    assert s.CodeFits(codes[i]);
    assert s.MasksFit(t[h], codes[i]);
    assert s.IndexFits(i, codes[i]);
    if s.tagsDiffer(t[h], codes[i]) {
      q := h;
    } else {
      q := Q(s, codes, i).value;
      assert s.MasksFit(t[q], codes[i]);
    }
  }

  lemma SameIndex(s: Scheme, i: nat, j: nat)
    requires s.WellFormed() && i < s.room && j < s.room && s.idx(i) == s.idx(j)
    ensures i == j
  {
    assert s.IndicesApart(i, j);
  }

  lemma LastIndexOnly(s: Scheme, i: nat)
    requires s.WellFormed() && i < s.room && s.low(EMPTY) == s.idx(i)
    ensures i == s.room - 1
  {
    assert s.IndicesApart(i, i);
  }

  lemma LastIsOwned(s: Scheme, codes: seq<bv16>)
    requires |codes| > 0 && Builds(s, codes, |codes|)
    ensures Owner(s, codes, |codes|, Place(s, codes, |codes| - 1)) == Some(|codes| - 1)
  {
  }

  lemma ReadFromOwner(s: Scheme, codes: seq<bv16>, i: nat, q: nat)
    requires s.WellFormed() && i < |codes| && Builds(s, codes, |codes|) && Builds(s, codes, i + 1)
    requires q < s.size && s.low(Table(s, codes, |codes|)[q]) == s.idx(i)
    ensures Owner(s, codes, |codes|, Place(s, codes, i)) == Some(i)
  {
    OwnerHoldsCell(s, codes, |codes|, q);
    var o := Owner(s, codes, |codes|, q);
    if o.Some? {
      SameIndex(s, i, o.value);
    } else {
      LastIndexOnly(s, i);
      LastIsOwned(s, codes);
    }
  }

  /** Every index is still the last one written at its place. */
  lemma OwnsItsPlace(s: Scheme, codes: seq<bv16>, i: nat)
    requires Inverts(s, codes) && i < |codes|
    ensures Builds(s, codes, |codes|) && Builds(s, codes, i + 1)
    ensures Owner(s, codes, |codes|, Place(s, codes, i)) == Some(i)
  {
    BuildsBefore(s, codes, i + 1, |codes|);
    var q := CellRead(s, codes, i);
    ReadFromOwner(s, codes, i, q);
  }

  lemma PlacesApart(s: Scheme, codes: seq<bv16>, i: nat, j: nat)
    requires Inverts(s, codes) && i < |codes| && j < |codes| && i != j
    ensures Builds(s, codes, i + 1) && Builds(s, codes, j + 1)
    ensures Place(s, codes, i) != Place(s, codes, j)
  {
    OwnsItsPlace(s, codes, i);
    OwnsItsPlace(s, codes, j);
  }

  /** A code whose bucket belongs to another index is read from its slot. */
  lemma ReadsSlot(s: Scheme, codes: seq<bv16>, i: nat, j: nat)
    requires Inverts(s, codes) && i < |codes| && j < |codes| && i != j
    requires Builds(s, codes, j + 1) && Place(s, codes, j) == H(s, codes, i)
    ensures Builds(s, codes, |codes|) && H(s, codes, i) < s.size
    ensures s.tag(Table(s, codes, |codes|)[H(s, codes, i)]) == s.tag(codes[i])
  {
    OwnsItsPlace(s, codes, j);
    OwnerHoldsCell(s, codes, |codes|, H(s, codes, i));
    var q := CellRead(s, codes, i);
    assert s.IndicesApart(i, j);
  }

  lemma CodesApart(s: Scheme, codes: seq<bv16>, i: nat, j: nat)
    requires Inverts(s, codes) && i < |codes| && j < |codes| && codes[i] == codes[j]
    ensures i == j
  {
    AllBuild(s, codes);
    var t := Table(s, codes, |codes|);
    assert Finds(s, t, codes, i) && Finds(s, t, codes, j);
    assert s.IndicesApart(i, j);
  }

  /** At most one code besides the owner of a cell has that cell as its bucket. */
  lemma OneGuest(s: Scheme, codes: seq<bv16>, j: nat, i: nat, k: nat)
    requires Inverts(s, codes) && i < |codes| && j < |codes| && k < |codes|
    requires i != j && k != j && Builds(s, codes, j + 1)
    requires H(s, codes, i) == Place(s, codes, j) == H(s, codes, k)
    ensures i == k
  {
    ReadsSlot(s, codes, i, j);
    ReadsSlot(s, codes, k, j);
    assert s.TagDecides(codes[i], codes[k]);
    CodesApart(s, codes, i, k);
  }

  /** If the only code with bucket q is i, and index j was written bare into q before turn i, then
      from then on q holds j, retagged once. */
  lemma {:induction false} BareThenRetagged(s: Scheme, codes: seq<bv16>, n: nat, j: nat, i: nat, q: nat)
    requires Builds(s, codes, n) && j < n && j < i < |codes| && q < s.size
    requires Builds(s, codes, j + 1) && Place(s, codes, j) == q && Collides(s, codes, j)
    requires forall k :: j < k < n && Builds(s, codes, k + 1) ==> Place(s, codes, k) != q
    requires forall k :: j < k < n ==> (H(s, codes, k) == q <==> k == i)
    ensures Table(s, codes, n)[q] == if n <= i then s.idx(j) else s.retag(s.idx(j), codes[i])
    decreases n
  {
    Turn(s, codes, n, q);
    if n == j + 1 {
    } else {
      BareThenRetagged(s, codes, n - 1, j, i, q);
    }
  }

  lemma RetaggedIsNotRead(s: Scheme, j: nat, c: bv16)
    requires s.WellFormed() && j < s.room && s.isCode(c)
    ensures s.tag(s.retag(s.idx(j), c)) != s.tag(c)
  {
    assert s.IndexFits(j, c);
  }

  /** If the host of a bucket was an overflow write then its guest is the only code of the bucket. */
  lemma OnlyGuest(s: Scheme, codes: seq<bv16>, j: nat, i: nat, k: nat)
    requires Inverts(s, codes) && j < i < |codes| && k < |codes|
    requires Builds(s, codes, j + 1) && Collides(s, codes, j) && Place(s, codes, j) == H(s, codes, i)
    ensures H(s, codes, k) == H(s, codes, i) <==> k == i
  {
    if H(s, codes, k) == H(s, codes, i) {
      if k == j {
        AllBuild(s, codes);
        OwnedIsLive(s, codes, j, H(s, codes, i));
        PlacesApart(s, codes, Owner(s, codes, j, H(s, codes, i)).value, j);
      } else {
        OneGuest(s, codes, j, i, k);
      }
    }
  }

  /** The occupant a code collides with was itself alone in that bucket. */
  lemma HostIsHome(s: Scheme, codes: seq<bv16>, i: nat) returns (j: nat)
    requires Inverts(s, codes) && i < |codes| && Builds(s, codes, i + 1) && Collides(s, codes, i)
    ensures j < i && Builds(s, codes, j + 1) && !Collides(s, codes, j)
    ensures H(s, codes, j) == H(s, codes, i)
  {
    AllBuild(s, codes);
    var q := H(s, codes, i);
    OwnedIsLive(s, codes, i, q);
    j := Owner(s, codes, i, q).value;
    if Collides(s, codes, j) {
      forall k | j < k < |codes| ensures H(s, codes, k) == q <==> k == i { OnlyGuest(s, codes, j, i, k); }
      forall k | j < k < |codes| && Builds(s, codes, k + 1) ensures Place(s, codes, k) != q {
        PlacesApart(s, codes, j, k);
      }
      BareThenRetagged(s, codes, |codes|, j, i, q);
      RetaggedIsNotRead(s, j, codes[i]);
      ReadsSlot(s, codes, i, j);
    }
  }

  lemma BucketIsTaken(s: Scheme, codes: seq<bv16>, j: nat, i: nat)
    requires s.WellFormed() && j < i < |codes| && Builds(s, codes, i + 1)
    requires H(s, codes, j) == H(s, codes, i)
    ensures Collides(s, codes, i)
  {
    var q := H(s, codes, i);
    BuildsBefore(s, codes, i, i + 1);
    BuildsBefore(s, codes, j + 1, i);
    BuildsBefore(s, codes, j, i);
    OwnedIsLive(s, codes, j, q);
    OwnedStaysOwned(s, codes, j + 1, i, q);
    OwnedIsLive(s, codes, i, q);
  }

  lemma CollidesIffSecond(s: Scheme, codes: seq<bv16>, i: nat)
    requires Inverts(s, codes) && i < |codes|
    ensures Builds(s, codes, i + 1)
    ensures Collides(s, codes, i) <==> Second(s, codes, i)
  {
    AllBuild(s, codes);
    if Collides(s, codes, i) {
      var j := HostIsHome(s, codes, i);
    } else if j :| 0 <= j < i && H(s, codes, j) == H(s, codes, i) {
      BucketIsTaken(s, codes, j, i);
    }
  }

  /** The second of a bucket is stored in its slot, the first in the bucket. */
  lemma WhereItIs(s: Scheme, codes: seq<bv16>, i: nat)
    requires Inverts(s, codes) && i < |codes|
    ensures Builds(s, codes, i + 1)
    ensures if Second(s, codes, i) then Q(s, codes, i) == Some(Place(s, codes, i))
            else Place(s, codes, i) == H(s, codes, i)
  {
    CollidesIffSecond(s, codes, i);
    BuildsBefore(s, codes, i, i + 1);
  }

  lemma NoThird(s: Scheme, codes: seq<bv16>, i: nat, j: nat, k: nat)
    requires Inverts(s, codes) && i < j < k < |codes|
    ensures !Together(s, codes, i, j, k)
  {
    if Together(s, codes, i, j, k) {
      CollidesIffSecond(s, codes, j);
      var first := HostIsHome(s, codes, j);
      OneGuest(s, codes, first, j, k);
    }
  }

  lemma SlotIsFree(s: Scheme, codes: seq<bv16>, i: nat, j: nat)
    requires Inverts(s, codes) && i < |codes| && j < |codes| && Second(s, codes, i)
    ensures Q(s, codes, i) != Some(H(s, codes, j))
  {
    WhereItIs(s, codes, i);
    WhereItIs(s, codes, j);
    var home := j;
    if Second(s, codes, j) {
      CollidesIffSecond(s, codes, j);
      home := HostIsHome(s, codes, j);
    }
    CollidesIffSecond(s, codes, i);
    if home != i {
      PlacesApart(s, codes, i, home);
    }
  }

  lemma InvertsOnlyIfAdmissible(s: Scheme, codes: seq<bv16>)
    requires Inverts(s, codes)
    ensures Admissible(s, codes)
  {
    forall i, j | 0 <= i < j < |codes| ensures codes[i] != codes[j] {
      if codes[i] == codes[j] { CodesApart(s, codes, i, j); }
    }
    forall i, j, k | 0 <= i < j < k < |codes|
      ensures !Together(s, codes, i, j, k)
    {
      NoThird(s, codes, i, j, k);
    }
    forall i | 0 <= i < |codes| && Second(s, codes, i) ensures Q(s, codes, i).Some? {
      WhereItIs(s, codes, i);
    }
    forall i, j | 0 <= i < j < |codes| && Second(s, codes, i) && Second(s, codes, j)
      ensures Q(s, codes, i) != Q(s, codes, j)
    {
      WhereItIs(s, codes, i);
      WhereItIs(s, codes, j);
      PlacesApart(s, codes, i, j);
    }
    forall i, j | 0 <= i < |codes| && 0 <= j < |codes| && Second(s, codes, i)
      ensures Q(s, codes, i) != Some(H(s, codes, j))
    {
      SlotIsFree(s, codes, i, j);
    }
  }
}
