/** How the table fills up, and how many codes a bucket can serve. */
module HashOccupancy {
  import opened Options
  import opened TaggedHash
  import opened HashSufficiency

  /** The cells that do not look empty. */
  ghost function Live(t: seq<bv16>): set<nat> {
    set q: nat | q < |t| && t[q] != EMPTY
  }

  /** The cells that hold index i do not look empty, alone or in an overflow slot. */
  ghost predicate Shows(s: Scheme, i: nat) {
    s.lone(s.idx(i)) != EMPTY && s.idx(i) != EMPTY
  }

  lemma PairIsLive(s: Scheme, i: nat, c: bv16)
    requires s.WellFormed() && i + 1 < s.room
    ensures s.retag(s.lone(s.idx(i)), c) != EMPTY
  {
    assert s.IndexFits(i, c) && s.MasksFit(s.lone(s.idx(i)), c) && s.IndicesApart(i, i);
  }

  lemma SecondTakesOne(s: Scheme, codes: seq<bv16>, n: nat, t: seq<bv16>)
    requires s.WellFormed() && Codes(s, codes) && Admissible(s, codes)
    requires n < |codes| && Holds(s, codes, n, t) && Second(s, codes, n) && Shows(s, n)
    ensures Insert(s, t, codes[n], n).Some? && Q(s, codes, n).Some?
    ensures Q(s, codes, n).value !in Live(t)
    ensures Live(Insert(s, t, codes[n], n).value) == Live(t) + {Q(s, codes, n).value}
  {
    CellsInRange(s, codes, n);
    LonesAreLive(s);
    var b := BucketBefore(s, codes, n);
    PairIsLive(s, b.i, codes[n]);
    var p := Q(s, codes, n).value;
    assert Describes(s, codes, n, p, Empty);
  }

  lemma FirstTakesOne(s: Scheme, codes: seq<bv16>, n: nat, t: seq<bv16>)
    requires s.WellFormed() && Codes(s, codes) && Admissible(s, codes)
    requires n < |codes| && Holds(s, codes, n, t) && !Second(s, codes, n) && Shows(s, n)
    ensures Insert(s, t, codes[n], n).Some?
    ensures H(s, codes, n) !in Live(t)
    ensures Live(Insert(s, t, codes[n], n).value) == Live(t) + {H(s, codes, n)}
  {
    CellsInRange(s, codes, n);
    var b := BucketBefore(s, codes, n);
  }

  lemma OneMore(s: Scheme, codes: seq<bv16>, n: nat)
    requires s.WellFormed() && Codes(s, codes) && Admissible(s, codes) && n < |codes| && Shows(s, n)
    ensures BuildTo(s, codes, n).Some? && BuildTo(s, codes, n + 1).Some?
    ensures |Live(BuildTo(s, codes, n + 1).value)| == |Live(BuildTo(s, codes, n).value)| + 1
  {
    Classification(s, codes, n);
    if Second(s, codes, n) {
      SecondTakesOne(s, codes, n, BuildTo(s, codes, n).value);
    } else {
      FirstTakesOne(s, codes, n, BuildTo(s, codes, n).value);
    }
  }

  /** Every turn, colliding or not, takes exactly one empty cell. */
  lemma {:induction false} OneCellPerCode(s: Scheme, codes: seq<bv16>, n: nat)
    requires s.WellFormed() && Codes(s, codes) && Admissible(s, codes) && n <= |codes|
    requires forall i :: 0 <= i < n ==> Shows(s, i)
    ensures BuildTo(s, codes, n).Some? && |Live(BuildTo(s, codes, n).value)| == n
    decreases n
  {
    if n == 0 {
      assert Live(AllEmpty(s.size)) == {};
    } else {
      OneCellPerCode(s, codes, n - 1);
      OneMore(s, codes, n - 1);
    }
  }

  lemma {:induction false} IndicesBelow(n: nat) returns (r: set<nat>)
    ensures forall q: nat :: q in r <==> q < n
    ensures |r| == n
  {
    if n == 0 {
      r := {};
    } else {
      var r' := IndicesBelow(n - 1);
      r := r' + {n - 1};
    }
  }

  /** As many codes as cells leave no cell empty. */
  lemma FullTable(s: Scheme, codes: seq<bv16>)
    requires s.WellFormed() && Codes(s, codes) && Admissible(s, codes) && |codes| == s.size
    requires forall i :: 0 <= i < |codes| ==> Shows(s, i)
    ensures BuildTo(s, codes, |codes|).Some?
    ensures forall q :: 0 <= q < s.size ==> BuildTo(s, codes, |codes|).value[q] != EMPTY
  {
    OneCellPerCode(s, codes, |codes|);
    var t := BuildTo(s, codes, |codes|).value;
    var all := IndicesBelow(s.size);
    if q: nat :| q < s.size && q !in Live(t) {
      assert Live(t) <= all - {q};
      SubsetCard(Live(t), all - {q});
    }
    forall q: nat | q < s.size ensures t[q] != EMPTY {
      assert q in Live(t);
    }
  }

  lemma {:induction false} SubsetCard(a: set<nat>, b: set<nat>)
    requires a <= b
    ensures |a| <= |b|
    decreases |a|
  {
    if a == {} {
    } else {
      var x :| x in a;
      SubsetCard(a - {x}, b - {x});
    }
  }

  /** The lookup of the key goes on to its overflow slot. */
  predicate Overflows(s: Scheme, t: seq<bv16>, key: bv16) {
    s.hash(key) < |t| && !s.tagsDiffer(t[s.hash(key)], key)
  }

  /** Whatever the table holds, of two codes in one bucket at most one is looked up in its overflow
      slot; the others share one value. */
  lemma BucketServesTwo(s: Scheme, t: seq<bv16>, a: bv16, b: bv16)
    requires s.WellFormed() && s.isCode(a) && s.isCode(b)
    requires a != b && s.hash(a) == s.hash(b)
    ensures !Overflows(s, t, a) || !Overflows(s, t, b)
    ensures !Overflows(s, t, a) && !Overflows(s, t, b) ==> Lookup(s, t, a) == Lookup(s, t, b)
  {
    var h := s.hash(a);
    if h < |t| {
      assert s.MasksFit(t[h], a) && s.MasksFit(t[h], b);
      TagsApart(s, a, b);
    }
  }

  /** No table at all, whoever built it, finds equal codes or three codes of one bucket. */
  lemma AnyTableServesTwo(s: Scheme, t: seq<bv16>, codes: seq<bv16>)
    requires s.WellFormed() && Codes(s, codes)
    requires forall i :: 0 <= i < |codes| ==> Finds(s, t, codes, i)
    ensures Distinct(codes) && AtMostTwoPerBucket(s, codes)
  {
    forall i, j | 0 <= i < j < |codes| ensures codes[i] != codes[j] {
      FoundApart(s, t, codes, i, j);
    }
    forall i, j, k | 0 <= i < j < k < |codes| ensures !Together(s, codes, i, j, k) {
      FoundApart(s, t, codes, i, j);
      FoundApart(s, t, codes, i, k);
      FoundApart(s, t, codes, j, k);
      if Together(s, codes, i, j, k) {
        BucketServesTwo(s, t, codes[i], codes[j]);
        BucketServesTwo(s, t, codes[i], codes[k]);
        BucketServesTwo(s, t, codes[j], codes[k]);
      }
    }
  }

  lemma FoundApart(s: Scheme, t: seq<bv16>, codes: seq<bv16>, i: nat, j: nat)
    requires s.WellFormed() && Codes(s, codes) && i < j < |codes|
    requires Finds(s, t, codes, i) && Finds(s, t, codes, j)
    ensures Lookup(s, t, codes[i]) != Lookup(s, t, codes[j])
  {
    assert s.IndicesApart(i, j);
  }
}
