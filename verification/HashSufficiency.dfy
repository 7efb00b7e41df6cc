/**
 If the codes are admissible then the build loop succeeds, every cell is what its class says, and
 every intermediate table already inverts the codes inserted so far.
 */
module HashSufficiency {
  import opened Options
  import opened TaggedHash

  /** The four kinds of cell: empty, a lone code, the first of a pair with the tag of the second,
      and the bare index of the second of a pair. */
  datatype Cell = Empty | Lone(i: nat) | Paired(i: nat, second: nat) | Overflow(second: nat)

  /** Cell q is of kind k after n turns; only the codes are mentioned. */
  ghost predicate Describes(s: Scheme, codes: seq<bv16>, n: nat, q: nat, k: Cell)
    requires n <= |codes|
  {
    match k
    case Empty =>
      && (forall i :: 0 <= i < n ==> H(s, codes, i) != q)
      && (forall i :: 0 <= i < n && Second(s, codes, i) ==> Q(s, codes, i) != Some(q))
    case Lone(i) =>
      && i < n && H(s, codes, i) == q
      && (forall j :: 0 <= j < n && H(s, codes, j) == q ==> j == i)
    case Paired(i, j) =>
      && i < j < n && H(s, codes, i) == q && H(s, codes, j) == q
    case Overflow(j) =>
      && j < n && Second(s, codes, j) && Q(s, codes, j) == Some(q)
  }

  /** The contents of a cell of kind k. */
  function Word(s: Scheme, codes: seq<bv16>, k: Cell): bv16
    requires k.Lone? ==> k.i < |codes|
    requires k.Paired? ==> k.i < |codes| && k.second < |codes|
    requires k.Overflow? ==> k.second < |codes|
  {
    match k
    case Empty => EMPTY
    case Lone(i) => s.lone(s.idx(i))
    case Paired(i, j) => s.retag(s.lone(s.idx(i)), codes[j])
    case Overflow(j) => s.idx(j)
  }

  /** The table t is the one the classes prescribe after n turns. */
  ghost predicate Holds(s: Scheme, codes: seq<bv16>, n: nat, t: seq<bv16>)
    requires n <= |codes|
  {
    && |t| == s.size
    && forall q, k :: 0 <= q < s.size && Describes(s, codes, n, q, k) ==> t[q] == Word(s, codes, k)
  }

  /** Every cell has a kind. */
  lemma KindExists(s: Scheme, codes: seq<bv16>, n: nat, q: nat) returns (k: Cell)
    requires n <= |codes|
    ensures Describes(s, codes, n, q, k)
  {
    if i :| 0 <= i < n && H(s, codes, i) == q {
      if j :| 0 <= j < n && H(s, codes, j) == q && j != i {
        k := if i < j then Paired(i, j) else Paired(j, i);
      } else {
        k := Lone(i);
      }
    } else if j :| 0 <= j < n && Second(s, codes, j) && Q(s, codes, j) == Some(q) {
      k := Overflow(j);
    } else {
      k := Empty;
    }
  }

  lemma TwoPerBucket(s: Scheme, codes: seq<bv16>, i: nat, j: nat, k: nat)
    requires AtMostTwoPerBucket(s, codes)
    requires i < j < |codes| && k < |codes|
    ensures Together(s, codes, i, j, k) ==> k == i || k == j
  {
    if k < i {
      assert !Together(s, codes, k, i, j);
    } else if i < k < j {
      assert !Together(s, codes, i, k, j);
    } else if j < k {
      assert !Together(s, codes, i, j, k);
    }
  }

  lemma KindUnique(s: Scheme, codes: seq<bv16>, n: nat, q: nat, k: Cell, k': Cell)
    requires n <= |codes| && Admissible(s, codes)
    requires Describes(s, codes, n, q, k) && Describes(s, codes, n, q, k')
    ensures k == k'
  {
    if k.Overflow? || k'.Overflow? {
      var j := if k.Overflow? then k.second else k'.second;
      assert forall i :: 0 <= i < n ==> Q(s, codes, j) != Some(H(s, codes, i));
    } else if k.Paired? && k'.Paired? {
      TwoPerBucket(s, codes, k.i, k.second, k'.i);
      TwoPerBucket(s, codes, k.i, k.second, k'.second);
    }
  }

  /** What the newcomer finds in its bucket. */
  lemma BucketBefore(s: Scheme, codes: seq<bv16>, n: nat) returns (k: Cell)
    requires n < |codes| && Admissible(s, codes)
    ensures Describes(s, codes, n, H(s, codes, n), k)
    ensures if Second(s, codes, n) then k.Lone? else k.Empty?
  {
    var h := H(s, codes, n);
    if Second(s, codes, n) {
      var i :| 0 <= i < n && H(s, codes, i) == h;
      k := Lone(i);
      forall j | 0 <= j < n && H(s, codes, j) == h ensures j == i {
        TwoPerBucket(s, codes, i, n, j);
      }
    } else {
      k := Empty;
      forall i | 0 <= i < n && Second(s, codes, i) ensures Q(s, codes, i) != Some(h) { }
    }
  }

  ghost predicate InRange(s: Scheme, codes: seq<bv16>, n: nat)
    requires n < |codes|
  {
    H(s, codes, n) < s.size && (Q(s, codes, n).Some? ==> Q(s, codes, n).value < s.size)
  }

  lemma SecondStep(s: Scheme, codes: seq<bv16>, n: nat, t: seq<bv16>)
    requires Codes(s, codes) && Admissible(s, codes) && n < |codes| && InRange(s, codes, n)
    requires forall i :: 0 <= i < s.room - 1 ==> s.lone(s.idx(i)) != EMPTY
    requires Holds(s, codes, n, t) && Second(s, codes, n)
    ensures Insert(s, t, codes[n], n).Some?
    ensures Holds(s, codes, n + 1, Insert(s, t, codes[n], n).value)
  {
    var h := H(s, codes, n);
    var b := BucketBefore(s, codes, n);
    assert Q(s, codes, n).Some?;
    var p := Q(s, codes, n).value;
    assert p != h;
    var t' := Insert(s, t, codes[n], n).value;
    assert t' == t[h := s.retag(t[h], codes[n])][p := s.idx(n)];
    forall q, k | 0 <= q < s.size && Describes(s, codes, n + 1, q, k)
      ensures t'[q] == Word(s, codes, k)
    {
      if q == h {
        assert Describes(s, codes, n + 1, h, Paired(b.i, n));
        KindUnique(s, codes, n + 1, h, k, Paired(b.i, n));
      } else if q == p {
        assert Describes(s, codes, n + 1, p, Overflow(n));
        KindUnique(s, codes, n + 1, p, k, Overflow(n));
      } else {
        assert Describes(s, codes, n, q, k);
      }
    }
  }

  lemma FirstStep(s: Scheme, codes: seq<bv16>, n: nat, t: seq<bv16>)
    requires Codes(s, codes) && Admissible(s, codes) && n < |codes| && InRange(s, codes, n)
    requires Holds(s, codes, n, t) && !Second(s, codes, n)
    ensures Insert(s, t, codes[n], n).Some?
    ensures Holds(s, codes, n + 1, Insert(s, t, codes[n], n).value)
  {
    var h := H(s, codes, n);
    var b := BucketBefore(s, codes, n);
    var t' := Insert(s, t, codes[n], n).value;
    forall q, k | 0 <= q < s.size && Describes(s, codes, n + 1, q, k)
      ensures t'[q] == Word(s, codes, k)
    {
      if q == h {
        assert Describes(s, codes, n + 1, h, Lone(n));
        KindUnique(s, codes, n + 1, h, k, Lone(n));
      } else {
        assert Describes(s, codes, n, q, k);
      }
    }
  }

  lemma LonesAreLive(s: Scheme)
    requires s.WellFormed()
    ensures forall i :: 0 <= i < s.room - 1 ==> s.lone(s.idx(i)) != EMPTY
  {
    forall i | 0 <= i < s.room - 1 ensures s.lone(s.idx(i)) != EMPTY {
      assert s.IndexFits(i, EMPTY) && s.IndicesApart(i, i);
    }
  }

  lemma CellsInRange(s: Scheme, codes: seq<bv16>, n: nat)
    requires s.WellFormed() && Codes(s, codes) && n < |codes|
    ensures InRange(s, codes, n)
  {
    assert s.CodeFits(codes[n]);
  }

  lemma EmptyTable(s: Scheme, codes: seq<bv16>)
    ensures BuildTo(s, codes, 0).Some? && Holds(s, codes, 0, BuildTo(s, codes, 0).value)
  {
  }

  lemma OneTurn(s: Scheme, codes: seq<bv16>, n: nat, t: seq<bv16>)
    requires s.WellFormed() && Codes(s, codes) && Admissible(s, codes) && n < |codes|
    requires Holds(s, codes, n, t)
    ensures Insert(s, t, codes[n], n).Some?
    ensures Holds(s, codes, n + 1, Insert(s, t, codes[n], n).value)
  {
    CellsInRange(s, codes, n);
    if Second(s, codes, n) {
      LonesAreLive(s);
      SecondStep(s, codes, n, t);
    } else {
      FirstStep(s, codes, n, t);
    }
  }

  /** The build loop never leaves the table, and every cell is what its kind says. */
  lemma {:induction false} Classification(s: Scheme, codes: seq<bv16>, n: nat)
    requires s.WellFormed() && Codes(s, codes) && Admissible(s, codes) && n <= |codes|
    ensures BuildTo(s, codes, n).Some?
    ensures Holds(s, codes, n, BuildTo(s, codes, n).value)
    decreases n
  {
    if n == 0 {
      EmptyTable(s, codes);
    } else {
      Classification(s, codes, n - 1);
      OneTurn(s, codes, n - 1, BuildTo(s, codes, n - 1).value);
    }
  }

  lemma TagsApart(s: Scheme, a: bv16, b: bv16)
    requires s.WellFormed() && s.isCode(a) && s.isCode(b) && s.hash(a) == s.hash(b) && a != b
    ensures s.tag(a) != s.tag(b)
  {
    assert s.TagDecides(a, b);
  }

  lemma LoneWord(s: Scheme, i: nat, c: bv16)
    requires s.WellFormed() && i < s.room && s.isCode(c)
    ensures s.low(s.lone(s.idx(i))) == s.idx(i) && s.tagsDiffer(s.lone(s.idx(i)), c)
  {
    assert s.IndexFits(i, c) && s.MasksFit(s.lone(s.idx(i)), c);
  }

  lemma PairWord(s: Scheme, i: nat, second: bv16, c: bv16)
    requires s.WellFormed() && i < s.room && s.isCode(second) && s.isCode(c)
    ensures s.low(s.retag(s.lone(s.idx(i)), second)) == s.idx(i)
    ensures s.tagsDiffer(s.retag(s.lone(s.idx(i)), second), c) <==> s.tag(second) != s.tag(c)
  {
    var w := s.lone(s.idx(i));
    assert s.IndexFits(i, second) && s.MasksFit(w, second) && s.MasksFit(s.retag(w, second), c);
  }

  lemma OverflowWord(s: Scheme, i: nat)
    requires s.WellFormed() && i < s.room
    ensures s.result(s.idx(i)) == s.idx(i)
  {
    assert s.IndexFits(i, EMPTY);
  }

  lemma SecondLooksUp(s: Scheme, codes: seq<bv16>, n: nat, i: nat, t: seq<bv16>)
    requires s.WellFormed() && Codes(s, codes) && Admissible(s, codes)
    requires i < n <= |codes| && Holds(s, codes, n, t) && Second(s, codes, i)
    ensures Lookup(s, t, codes[i]) == Some(s.idx(i))
  {
    var h := H(s, codes, i);
    var j :| 0 <= j < i && H(s, codes, j) == h;
    assert Describes(s, codes, n, h, Paired(j, i));
    CellsInRange(s, codes, i);
    PairWord(s, j, codes[i], codes[i]);
    assert Q(s, codes, i).Some?;
    assert Describes(s, codes, n, Q(s, codes, i).value, Overflow(i));
    OverflowWord(s, i);
  }

  lemma FirstLooksUp(s: Scheme, codes: seq<bv16>, n: nat, i: nat, t: seq<bv16>)
    requires s.WellFormed() && Codes(s, codes) && Admissible(s, codes)
    requires i < n <= |codes| && Holds(s, codes, n, t) && !Second(s, codes, i)
    ensures Lookup(s, t, codes[i]) == Some(s.idx(i))
  {
    var h := H(s, codes, i);
    CellsInRange(s, codes, i);
    if j :| i < j < n && H(s, codes, j) == h {
      assert Describes(s, codes, n, h, Paired(i, j));
      TagsApart(s, codes[i], codes[j]);
      PairWord(s, i, codes[j], codes[i]);
    } else {
      assert Describes(s, codes, n, h, Lone(i));
      LoneWord(s, i, codes[i]);
    }
  }

  /** Every intermediate table is already right. */
  lemma AdmissibleInverts(s: Scheme, codes: seq<bv16>, n: nat)
    requires s.WellFormed() && Codes(s, codes) && Admissible(s, codes) && n <= |codes|
    ensures InvertsTo(s, codes, n)
  {
    Classification(s, codes, n);
    forall i | 0 <= i < n
      ensures Finds(s, BuildTo(s, codes, n).value, codes, i)
    {
      if Second(s, codes, i) {
        SecondLooksUp(s, codes, n, i, BuildTo(s, codes, n).value);
      } else {
        FirstLooksUp(s, codes, n, i, BuildTo(s, codes, n).value);
      }
    }
  }
}
