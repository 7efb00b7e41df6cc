/**
 The line that `write_struct` of `scripts/fetch_language_identifiers.py` assembles from both of its
 ends, and the last separator it drops.
 */
module LanguageLine {

  /** A cell as it goes into the line, without its separator. */
  datatype Piece = Number(text: string) | Text(text: string)
  {
    function WithSeparator(): string {
      match this
      case Number(_) => text + ", "
      case Text(_) => text + ",\t"
    }
  }

  function Join(ps: seq<Piece>): string
    decreases |ps|
  {
    if ps == [] then "" else Join(ps[..|ps| - 1]) + ps[|ps| - 1].WithSeparator()
  }

  /** The line after one more piece: with inv, numbers go to the front. */
  function Extended(inv: bool, line: string, p: Piece): string {
    if inv && p.Number? then p.WithSeparator() + line else line + p.WithSeparator()
  }

  /** The line of the pieces so far. */
  function LineOf(inv: bool, ps: seq<Piece>): string
    decreases |ps|
  {
    if ps == [] then "" else Extended(inv, LineOf(inv, ps[..|ps| - 1]), ps[|ps| - 1])
  }

  function Reversed(ps: seq<Piece>): seq<Piece>
    decreases |ps|
  {
    if ps == [] then [] else [ps[|ps| - 1]] + Reversed(ps[..|ps| - 1])
  }

  function Numbers(ps: seq<Piece>): seq<Piece>
    decreases |ps|
  {
    if ps == [] then []
    else if ps[|ps| - 1].Number? then Numbers(ps[..|ps| - 1]) + [ps[|ps| - 1]]
    else Numbers(ps[..|ps| - 1])
  }

  function Texts(ps: seq<Piece>): seq<Piece>
    decreases |ps|
  {
    if ps == [] then []
    else if ps[|ps| - 1].Text? then Texts(ps[..|ps| - 1]) + [ps[|ps| - 1]]
    else Texts(ps[..|ps| - 1])
  }

  /** The order in which a row's pieces are written. */
  function Ordered(inv: bool, ps: seq<Piece>): seq<Piece> {
    if inv then Reversed(Numbers(ps)) + Texts(ps) else ps
  }

  lemma JoinSnoc(ps: seq<Piece>, p: Piece)
    ensures Join(ps + [p]) == Join(ps) + p.WithSeparator()
  {
    assert (ps + [p])[..|ps|] == ps;
  }

  lemma Assoc(a: string, b: string, c: string, ab: string, bc: string, abc: string)
    requires ab == a + b && bc == b + c && abc == ab + c
    ensures abc == a + bc
  {
  }

  lemma JoinConsSnoc(p: Piece, most: seq<Piece>, q: Piece)
    requires Join([p] + most) == p.WithSeparator() + Join(most)
    ensures Join([p] + (most + [q])) == p.WithSeparator() + Join(most + [q])
  {
    var ps := most + [q];
    assert [p] + ps == ([p] + most) + [q];
    JoinSnoc(most, q);
    JoinSnoc([p] + most, q);
    Assoc(p.WithSeparator(), Join(most), q.WithSeparator(), Join([p] + most), Join(ps), Join([p] + ps));
  }

  lemma JoinOne(p: Piece)
    ensures Join([p] + []) == p.WithSeparator() + Join([])
  {
    JoinSnoc([], p);
    assert [] + [p] == [p] + [];
  }

  lemma {:induction false} JoinCons(p: Piece, ps: seq<Piece>)
    ensures Join([p] + ps) == p.WithSeparator() + Join(ps)
    decreases |ps|
  {
    if |ps| == 0 {
      JoinOne(p);
    } else {
      var most, q := ps[..|ps| - 1], ps[|ps| - 1];
      assert ps == most + [q];
      JoinCons(p, most);
      JoinConsSnoc(p, most, q);
    }
  }

  lemma ReversedSnoc(ps: seq<Piece>, p: Piece)
    ensures Reversed(ps + [p]) == [p] + Reversed(ps)
  {
    assert (ps + [p])[..|ps|] == ps;
  }

  /** Where one more piece goes. */
  lemma {:induction false} OrderedSnoc(inv: bool, ps: seq<Piece>, p: Piece)
    ensures Ordered(inv, ps + [p]) ==
      if inv && p.Number? then [p] + Ordered(inv, ps) else Ordered(inv, ps) + [p]
  {
    assert (ps + [p])[..|ps|] == ps;
    if inv && p.Number? {
      ReversedSnoc(Numbers(ps), p);
      assert Numbers(ps + [p]) == Numbers(ps) + [p] && Texts(ps + [p]) == Texts(ps);
    } else if inv {
      assert Numbers(ps + [p]) == Numbers(ps) && Texts(ps + [p]) == Texts(ps) + [p];
    }
  }

  /** With inv the numbers come first, in reverse, then the other cells in order; without it every
      cell is in its place. */
  lemma {:induction false} LineIsOrdered(inv: bool, ps: seq<Piece>)
    ensures LineOf(inv, ps) == Join(Ordered(inv, ps))
    decreases |ps|
  {
    if |ps| == 0 {
    } else {
      var n := |ps| - 1;
      var most, p := ps[..n], ps[n];
      LineIsOrdered(inv, most);
      assert ps == most + [p];
      OrderedSnoc(inv, most, p);
      if inv && p.Number? {
        JoinCons(p, Ordered(inv, most));
      } else {
        JoinSnoc(Ordered(inv, most), p);
      }
    }
  }

  /** The slice line[:-2]. */
  function Trimmed(line: string): string {
    if |line| < 2 then "" else line[..|line| - 2]
  }

  /** Dropping two characters drops the last separator and nothing else. */
  lemma {:induction false} TrimDropsSeparator(ps: seq<Piece>)
    requires ps != []
    ensures Trimmed(Join(ps)) == Join(ps[..|ps| - 1]) + ps[|ps| - 1].text
  {
    var n := |ps| - 1;
    DropTwo(Join(ps[..n]), ps[n].text, ps[n].WithSeparator()[|ps[n].text|..], Join(ps));
  }

  lemma DropTwo(a: string, b: string, separator: string, whole: string)
    requires |separator| == 2 && whole == a + (b + separator)
    ensures Trimmed(whole) == a + b
  {
  }

  /** No piece is lost or made up by the reordering. */
  lemma {:induction false} OrderedIsPermutation(inv: bool, ps: seq<Piece>)
    ensures multiset(Ordered(inv, ps)) == multiset(ps)
    decreases |ps|
  {
    if ps == [] {
    } else {
      var n := |ps| - 1;
      OrderedIsPermutation(inv, ps[..n]);
      assert ps == ps[..n] + [ps[n]];
      OrderedSnoc(inv, ps[..n], ps[n]);
    }
  }

  lemma OrderedLength(inv: bool, ps: seq<Piece>)
    ensures |Ordered(inv, ps)| == |ps|
  {
    OrderedIsPermutation(inv, ps);
    assert |multiset(Ordered(inv, ps))| == |multiset(ps)|;
  }

  /** The line as it is printed: the pieces in order, separated, with no separator after the last. */
  lemma TrimmedLine(inv: bool, ps: seq<Piece>)
    requires ps != []
    ensures |Ordered(inv, ps)| == |ps|
    ensures Trimmed(LineOf(inv, ps)) == Join(Ordered(inv, ps)[..|ps| - 1]) + Ordered(inv, ps)[|ps| - 1].text
  {
    OrderedLength(inv, ps);
    LineIsOrdered(inv, ps);
    TrimDropsSeparator(Ordered(inv, ps));
  }

  /** The pieces with a separator between any two: a comma and a space after a number, a comma and
      a tab after a text. */
  function Separated(ps: seq<Piece>): string
    decreases |ps|
  {
    if ps == [] then ""
    else if |ps| == 1 then ps[0].text
    else ps[0].text + (if ps[0].Number? then ", " else ",\t") + Separated(ps[1..])
  }

  lemma Before(p: Piece, most: string, last: string, whole: string, more: string)
    requires whole == p.WithSeparator() + most && more == most + last
    ensures whole + last == p.text + (if p.Number? then ", " else ",\t") + more
  {
  }

  lemma {:induction false} JoinIsSeparated(ps: seq<Piece>)
    requires ps != []
    ensures Join(ps[..|ps| - 1]) + ps[|ps| - 1].text == Separated(ps)
    decreases |ps|
  {
    var n := |ps| - 1;
    if n > 0 {
      var more := ps[1..];
      JoinIsSeparated(more);
      assert ps[..n] == [ps[0]] + more[..n - 1];
      JoinCons(ps[0], more[..n - 1]);
      Before(ps[0], Join(more[..n - 1]), ps[n].text, Join(ps[..n]), Separated(more));
    }
  }

  /** The line is printed as its pieces in order, with the separators between them. */
  lemma LineIsSeparated(inv: bool, ps: seq<Piece>)
    ensures Trimmed(LineOf(inv, ps)) == Separated(Ordered(inv, ps))
  {
    OrderedLength(inv, ps);
    if ps != [] {
      TrimmedLine(inv, ps);
      JoinIsSeparated(Ordered(inv, ps));
    }
  }
}
