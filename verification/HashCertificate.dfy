/**
 A certificate that codes are admissible, checked code by code instead of pair by pair.
 It names, for every cell, the code stored there, and for every bucket its second code.
 */
module HashCertificate {
  import opened Options
  import opened TaggedHash

  /** Code i is where the certificate puts it: in its bucket, or in the slot of a second code. */
  predicate Placed(s: Scheme, codes: seq<bv16>, owner: nat -> nat, guest: nat -> nat, i: nat)
    requires i < |codes|
  {
    var h := s.hash(codes[i]);
    var j := owner(h);
    j == i ||
    (&& j < i && s.hash(codes[j]) == h && codes[j] != codes[i]
     && guest(h) == i
     && s.slot(codes[i]).Some? && owner(s.slot(codes[i]).value) == i)
  }

  ghost predicate Certified(s: Scheme, codes: seq<bv16>, owner: nat -> nat, guest: nat -> nat) {
    forall i :: 0 <= i < |codes| ==> Placed(s, codes, owner, guest, i)
  }

  lemma SameBucket(s: Scheme, codes: seq<bv16>, owner: nat -> nat, guest: nat -> nat, i: nat, j: nat)
    requires Certified(s, codes, owner, guest) && i < j < |codes| && H(s, codes, i) == H(s, codes, j)
    ensures owner(H(s, codes, j)) == i && guest(H(s, codes, j)) == j && codes[i] != codes[j]
  {
    assert Placed(s, codes, owner, guest, i) && Placed(s, codes, owner, guest, j);
  }

  lemma SecondIsGuest(s: Scheme, codes: seq<bv16>, owner: nat -> nat, guest: nat -> nat, i: nat)
    requires Certified(s, codes, owner, guest) && i < |codes|
    ensures Second(s, codes, i) <==> owner(H(s, codes, i)) != i
  {
    assert Placed(s, codes, owner, guest, i);
    if owner(H(s, codes, i)) != i {
      assert H(s, codes, owner(H(s, codes, i))) == H(s, codes, i);
    } else if j :| 0 <= j < i && H(s, codes, j) == H(s, codes, i) {
      SameBucket(s, codes, owner, guest, j, i);
    }
  }

  lemma CertifiedIsAdmissible(s: Scheme, codes: seq<bv16>, owner: nat -> nat, guest: nat -> nat)
    requires Certified(s, codes, owner, guest)
    ensures Admissible(s, codes)
  {
    forall i, j | 0 <= i < j < |codes| ensures codes[i] != codes[j] {
      if codes[i] == codes[j] { SameBucket(s, codes, owner, guest, i, j); }
    }
    forall i, j, k | 0 <= i < j < k < |codes| ensures !Together(s, codes, i, j, k) {
      if Together(s, codes, i, j, k) {
        SameBucket(s, codes, owner, guest, i, j);
        SameBucket(s, codes, owner, guest, i, k);
      }
    }
    forall i | 0 <= i < |codes| && Second(s, codes, i)
      ensures Q(s, codes, i).Some? && owner(Q(s, codes, i).value) == i
    {
      SecondIsGuest(s, codes, owner, guest, i);
      assert Placed(s, codes, owner, guest, i);
    }
    forall i, j | 0 <= i < |codes| && 0 <= j < |codes| && Second(s, codes, i)
      ensures Q(s, codes, i) != Some(H(s, codes, j))
    {
      SecondIsGuest(s, codes, owner, guest, i);
      assert Placed(s, codes, owner, guest, i) && Placed(s, codes, owner, guest, j);
    }
  }
}
