/** The build loop and the lookup as the programs run them, on one array updated in place. */
module HashTable {
  import opened Options
  import opened TaggedHash
  import opened HashSufficiency
  import opened HashNecessity

  /** The build loop yields a table that inverts the codes exactly when the codes are admissible. */
  lemma InvertsIffAdmissible(s: Scheme, codes: seq<bv16>)
    requires s.WellFormed() && Codes(s, codes)
    ensures InvertsTo(s, codes, |codes|) <==> Admissible(s, codes)
  {
    if Admissible(s, codes) {
      AdmissibleInverts(s, codes, |codes|);
    }
    if InvertsTo(s, codes, |codes|) {
      InvertsOnlyIfAdmissible(s, codes);
    }
  }

  class Table {
    const scheme: Scheme
    const cells: array<bv16>

    constructor (s: Scheme)
      ensures scheme == s && fresh(cells) && cells[..] == AllEmpty(s.size)
    {
      scheme := s;
      cells := new bv16[s.size](_ => EMPTY);
      new;
      assert cells[..] == AllEmpty(s.size);
    }

    /** The body of the build loop; ok is false where it would leave the table or `tab`. */
    method InsertCode(code: bv16, i: nat) returns (ok: bool)
      modifies cells
      ensures ok <==> Insert(scheme, old(cells[..]), code, i).Some?
      ensures ok ==> Insert(scheme, old(cells[..]), code, i) == Some(cells[..])
    {
      var h := scheme.hash(code);
      if h >= cells.Length { return false; }
      if cells[h] != EMPTY {
        cells[h] := scheme.retag(cells[h], code);
        var q := scheme.slot(code);
        if q.None? || q.value >= cells.Length { return false; }
        cells[q.value] := scheme.idx(i);
        assert cells[..] == old(cells[..])[h := scheme.retag(old(cells[h]), code)][q.value := scheme.idx(i)];
      } else {
        cells[h] := scheme.idx(i);
        cells[h] := scheme.lone(cells[h]);
        assert cells[..] == old(cells[..])[h := scheme.lone(scheme.idx(i))];
      }
      ok := true;
    }

    /** Stops, with ok false, at the first access outside the table or `tab`. */
    method BuildHashTable(codes: seq<bv16>) returns (ok: bool)
      requires cells[..] == AllEmpty(scheme.size)
      modifies cells
      ensures ok <==> BuildTo(scheme, codes, |codes|).Some?
      ensures ok ==> cells[..] == BuildTo(scheme, codes, |codes|).value
    {
      for i := 0 to |codes|
        invariant BuildTo(scheme, codes, i) == Some(cells[..])
      {
        BuildTurn(scheme, codes, i, cells[..]);
        ok := InsertCode(codes[i], i);
        if !ok {
          StuckStaysStuck(scheme, codes, i + 1, |codes|);
          return;
        }
      }
      ok := true;
    }

    /** The codes that do not look up to their index. */
    method Failures(codes: seq<bv16>) returns (failures: seq<nat>)
      ensures forall i :: i in failures <==> 0 <= i < |codes| && !Finds(scheme, cells[..], codes, i)
    {
      failures := [];
      for i := 0 to |codes|
        invariant forall k :: k in failures <==> 0 <= k < i && !Finds(scheme, cells[..], codes, k)
      {
        var v := GetValue(codes[i]);
        if v != Some(scheme.idx(i)) {
          failures := failures + [i];
        }
      }
    }

    method GetValue(huff: bv16) returns (r: Option<bv16>)
      ensures r == Lookup(scheme, cells[..], huff)
    {
      var i := scheme.hash(huff);
      if i >= cells.Length { return None; }
      var h := cells[i];
      if scheme.tagsDiffer(h, huff) { return Some(scheme.low(h)); }
      var q := scheme.slot(huff);
      if q.None? || q.value >= cells.Length { return None; }
      return Some(scheme.result(cells[q.value]));
    }
  }

  lemma BuildTurn(s: Scheme, codes: seq<bv16>, i: nat, t: seq<bv16>)
    requires i < |codes| && BuildTo(s, codes, i) == Some(t)
    ensures BuildTo(s, codes, i + 1) == Insert(s, t, codes[i], i)
  {
  }

  lemma {:induction false} StuckStaysStuck(s: Scheme, codes: seq<bv16>, m: nat, n: nat)
    requires m <= n <= |codes| && BuildTo(s, codes, m).None?
    ensures BuildTo(s, codes, n).None?
    decreases n
  {
    if m == n {
    } else {
      StuckStaysStuck(s, codes, m, n - 1);
    }
  }

  /** The self-check of both programs: build, then report the codes that do not look up to their
      index.  It reports nothing exactly when the codes are admissible. */
  method SelfCheck(s: Scheme, codes: seq<bv16>) returns (built: bool, failures: seq<nat>)
    requires s.WellFormed() && Codes(s, codes)
    ensures built && failures == [] <==> Admissible(s, codes)
    ensures built <==> BuildTo(s, codes, |codes|).Some?
    ensures built ==> forall i :: i in failures <==>
      0 <= i < |codes| && !Finds(s, BuildTo(s, codes, |codes|).value, codes, i)
  {
    var table := new Table(s);
    built := table.BuildHashTable(codes);
    failures := [];
    if built {
      failures := table.Failures(codes);
      NothingFails(s, codes, failures);
    }
    InvertsIffAdmissible(s, codes);
  }

  lemma NothingFails(s: Scheme, codes: seq<bv16>, failures: seq<nat>)
    requires BuildTo(s, codes, |codes|).Some?
    requires forall i :: i in failures <==>
      0 <= i < |codes| && !Finds(s, BuildTo(s, codes, |codes|).value, codes, i)
    ensures failures == [] <==> InvertsTo(s, codes, |codes|)
  {
    if failures != [] {
      assert failures[0] in failures;
    }
  }
}
