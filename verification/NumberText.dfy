/** The number formats of `scripts/fetch_language_identifiers.py`: digits in a base, and `padhexa`. */
module NumberText {
  import opened Options

  function DigitChar(d: nat): char
    requires d < 16
  {
    if d < 10 then ('0' as nat + d) as char else ('a' as nat + (d - 10)) as char
  }

  /** The value of a digit, 16 for another character. */
  function DigitValue(c: char): nat {
    if '0' <= c <= '9' then c as nat - '0' as nat
    else if 'a' <= c <= 'f' then c as nat - 'a' as nat + 10
    else 16
  }

  lemma DigitReadsBack(d: nat)
    requires d < 16
    ensures DigitValue(DigitChar(d)) == d
  {
  }

  /** The digits of n, most significant first; one digit for zero. */
  function Digits(n: nat, base: nat): (s: string)
    requires 2 <= base <= 16
    ensures s != []
    decreases n
  {
    if n < base then [DigitChar(n)]
    else
      Smaller(n, base);
      Digits(n / base, base) + [DigitChar(n % base)]
  }

  lemma Smaller(n: nat, base: nat)
    requires n >= base >= 2
    ensures 0 < n / base < n && 0 <= n % base < base
    ensures n / base * base + n % base == n
  {
  }

  predicate IsNumber(s: string, base: nat) {
    forall i :: 0 <= i < |s| ==> DigitValue(s[i]) < base
  }

  /** The number a string of digits denotes. */
  function ValueOf(s: string, base: nat): nat
    decreases |s|
  {
    if s == [] then 0 else ValueOf(s[..|s| - 1], base) * base + DigitValue(s[|s| - 1])
  }

  lemma ValueSnoc(s: string, c: char, base: nat)
    ensures ValueOf(s + [c], base) == ValueOf(s, base) * base + DigitValue(c)
  {
    assert (s + [c])[..|s|] == s;
  }

  lemma {:induction false} DigitsDenote(n: nat, base: nat)
    requires 2 <= base <= 16
    ensures ValueOf(Digits(n, base), base) == n && IsNumber(Digits(n, base), base)
    decreases n
  {
    if n < base {
      DigitReadsBack(n);
      ValueSnoc([], DigitChar(n), base);
      assert [] + [DigitChar(n)] == Digits(n, base);
    } else {
      Smaller(n, base);
      DigitReadsBack(n % base);
      DigitsDenote(n / base, base);
      ValueSnoc(Digits(n / base, base), DigitChar(n % base), base);
    }
  }

  /** The prefix, after a sign: hex, bin and oct of the program's language. */
  function Prefixed(v: int, prefix: string, base: nat): string
    requires 2 <= base <= 16
  {
    if v < 0 then "-" + (prefix + Digits(-v, base)) else prefix + Digits(v, base)
  }

  function Zeros(n: nat): (z: string)
    ensures |z| == n && forall i :: 0 <= i < n ==> z[i] == '0'
  {
    seq(n, _ => '0')
  }

  /** zfill for a string without a sign. */
  function ZFill(s: string, width: nat): string {
    if |s| < width then Zeros(width - |s|) + s else s
  }

  /** `padhexa`: the first two characters of hex(v) are dropped whatever they are. */
  function PadHexa(v: int): string {
    "0x" + ZFill(Prefixed(v, "0x", 16)[2..], 8)
  }

  /** Reading a hexadecimal literal. */
  function ReadHexa(s: string): Option<nat> {
    if |s| > 2 && s[..2] == "0x" && IsNumber(s[2..], 16) then Some(ValueOf(s[2..], 16)) else None
  }

  lemma {:induction false} LeadingZero(n: nat, s: string)
    ensures ValueOf(Zeros(n) + s, 16) == ValueOf(s, 16)
  {
    var z := Zeros(n) + s;
    if s != [] {
      assert z[..|z| - 1] == Zeros(n) + s[..|s| - 1];
      LeadingZero(n, s[..|s| - 1]);
    } else if n > 0 {
      assert z[..|z| - 1] == Zeros(n - 1) + [];
      LeadingZero(n - 1, []);
    }
  }

  lemma PadHexaDigits(v: nat)
    ensures PadHexa(v) == "0x" + ZFill(Digits(v, 16), 8)
  {
    assert Prefixed(v, "0x", 16)[2..] == Digits(v, 16);
  }

  /** The sign and the zero of "-0x" are dropped; the x stays and is padded. */
  function MarkedDigits(zeros: nat, v: int): string
    requires v < 0
  {
    Zeros(zeros) + "x" + Digits(-v, 16)
  }

  lemma PadHexaMarks(v: int) returns (zeros: nat)
    requires v < 0
    ensures PadHexa(v)[2..] == MarkedDigits(zeros, v)
  {
    var x := "x" + Digits(-v, 16);
    assert Prefixed(v, "0x", 16)[2..] == x;
    zeros := if |x| < 8 then 8 - |x| else 0;
    assert ZFill(x, 8) == Zeros(zeros) + x;
    assert Zeros(zeros) + x == MarkedDigits(zeros, v);
  }

  lemma {:induction false} PadHexaOfNegative(v: int)
    requires v < 0
    ensures ReadHexa(PadHexa(v)) == None
  {
    var zeros := PadHexaMarks(v);
    assert MarkedDigits(zeros, v)[zeros] == 'x';
    assert DigitValue('x') == 16;
  }

  lemma {:induction false} PadHexaOfNatural(v: nat)
    ensures ReadHexa(PadHexa(v)) == Some(v)
  {
    PadHexaDigits(v);
    var d := Digits(v, 16);
    DigitsDenote(v, 16);
    assert PadHexa(v)[..2] == "0x" && PadHexa(v)[2..] == ZFill(d, 8);
    if |d| < 8 {
      LeadingZero(8 - |d|, d);
    }
  }

  /** What padhexa prints reads back as the number it was given exactly when that is not negative:
      of a negative number the sign and the zero are dropped and the x stays. */
  lemma {:induction false} PadHexaReadsBack(v: int)
    ensures ReadHexa(PadHexa(v)) == (if v >= 0 then Some(v) else None)
  {
    if v >= 0 {
      PadHexaOfNatural(v);
    } else {
      PadHexaOfNegative(v);
    }
  }

  // ---------- Width ----------

  function Pow(base: nat, n: nat): nat {
    if n == 0 then 1 else base * Pow(base, n - 1)
  }

  lemma TimesKeepsOrder(base: nat, x: nat, y: nat)
    requires x <= y
    ensures base * x <= base * y
  {
  }

  lemma {:induction false} PowGrows(base: nat, m: nat, n: nat)
    requires base >= 1 && m <= n
    ensures 1 <= Pow(base, m) <= Pow(base, n)
    decreases n
  {
    if n > 0 {
      if m < n {
        PowGrows(base, m, n - 1);
        TimesKeepsOrder(Pow(base, n - 1), 1, base);
      } else {
        PowGrows(base, n - 1, n - 1);
        TimesKeepsOrder(base, 1, Pow(base, n - 1));
      }
    }
  }

  lemma WidthStep(n: nat, base: nat, m: nat, r: nat, k: nat)
    requires n == m * base + r && r < base
    requires k > 0 && Pow(base, k - 1) <= m < Pow(base, k)
    ensures Pow(base, k) <= n < Pow(base, k + 1)
  {
    TimesKeepsOrder(base, m + 1, Pow(base, k));
    TimesKeepsOrder(base, Pow(base, k - 1), m);
    assert base * (m + 1) == base * m + base;
  }

  lemma DigitsSnoc(n: nat, base: nat)
    requires n >= base && 2 <= base <= 16
    ensures 0 < n / base < n && n == n / base * base + n % base && n % base < base
    ensures |Digits(n, base)| == |Digits(n / base, base)| + 1
  {
    Smaller(n, base);
  }

  lemma PowOne(base: nat)
    ensures Pow(base, 0) == 1 && Pow(base, 1) == base
  {
    assert Pow(base, 1) == base * Pow(base, 0);
  }

  /** The digit string is as long as the number needs and no longer: no leading zero. */
  lemma {:induction false} DigitsWidth(n: nat, base: nat)
    requires 2 <= base <= 16
    ensures n < Pow(base, |Digits(n, base)|)
    ensures n > 0 ==> Pow(base, |Digits(n, base)| - 1) <= n
    decreases n
  {
    if n < base {
      PowOne(base);
    } else {
      DigitsSnoc(n, base);
      DigitsWidth(n / base, base);
      WidthStep(n, base, n / base, n % base, |Digits(n / base, base)|);
    }
  }

  /** The number of hexadecimal digits of v is k. */
  ghost predicate HasHexDigits(v: nat, k: nat) {
    k >= 1 && v < Pow(16, k) && (k == 1 || Pow(16, k - 1) <= v)
  }

  lemma NoFewerHexDigits(v: nat, j: nat, k: nat)
    requires HasHexDigits(v, j) && HasHexDigits(v, k)
    ensures j <= k
  {
    if k < j {
      PowGrows(16, k, j - 1);
    }
  }

  /** Every number has a number of hexadecimal digits, and only one. */
  lemma HexDigitsAreDigits(v: nat, k: nat)
    ensures HasHexDigits(v, k) <==> k == |Digits(v, 16)|
  {
    var d := |Digits(v, 16)|;
    DigitsWidth(v, 16);
    if v == 0 {
      assert Digits(v, 16) == [DigitChar(v)];
    }
    assert HasHexDigits(v, d);
    if HasHexDigits(v, k) {
      NoFewerHexDigits(v, d, k);
      NoFewerHexDigits(v, k, d);
    }
  }

  /** A number of k hexadecimal digits is printed with k digits, one more for the x of a negative
      number, or with eight if those are fewer. */
  lemma {:induction false} PadHexaWidth(v: int, k: nat)
    requires HasHexDigits(if v < 0 then -v else v, k)
    ensures |PadHexa(v)| == 2 + (if v < 0 then if k < 7 then 8 else k + 1 else if k < 8 then 8 else k)
  {
    if v < 0 {
      HexDigitsAreDigits(-v, k);
      assert Prefixed(v, "0x", 16)[2..] == "x" + Digits(-v, 16);
    } else {
      HexDigitsAreDigits(v, k);
      PadHexaDigits(v);
    }
  }

  lemma DigitsInjective(n: nat, m: nat)
    requires Digits(n, 16) == Digits(m, 16)
    ensures n == m
  {
    DigitsDenote(n, 16);
    DigitsDenote(m, 16);
  }

  lemma MarkFound(i: nat, v: int, j: nat, w: int)
    requires v < 0 && w < 0 && MarkedDigits(i, v) == MarkedDigits(j, w)
    ensures v == w
  {
    var s, t := MarkedDigits(i, v), MarkedDigits(j, w);
    assert s[i] == 'x' && t[j] == 'x';
    assert i == j;
    assert Digits(-v, 16) == s[i + 1..] && Digits(-w, 16) == t[i + 1..];
    DigitsInjective(-v, -w);
  }

  /** Different numbers print differently, negative or not: the x that stays marks where the digits
      of a negative number begin. */
  lemma PadHexaInjective(v: int, w: int)
    requires PadHexa(v) == PadHexa(w)
    ensures v == w
  {
    PadHexaReadsBack(v);
    PadHexaReadsBack(w);
    if v < 0 && w < 0 {
      var i := PadHexaMarks(v);
      var j := PadHexaMarks(w);
      MarkFound(i, v, j, w);
    }
  }

  /** Reading an integer literal with a prefix and perhaps a sign. */
  function ReadInt(s: string, prefix: string, base: nat): Option<int> {
    if |s| > 0 && s[0] == '-' then Signed(-1, ReadNat(s[1..], prefix, base))
    else Signed(1, ReadNat(s, prefix, base))
  }

  function Signed(sign: int, n: Option<nat>): Option<int> {
    if n.Some? then Some(sign * n.value) else None
  }

  function ReadNat(s: string, prefix: string, base: nat): Option<nat> {
    if |s| > |prefix| && prefix <= s && IsNumber(s[|prefix|..], base) then Some(ValueOf(s[|prefix|..], base))
    else None
  }

  lemma NatReadsBack(n: nat, prefix: string, base: nat)
    requires 2 <= base <= 16 && (prefix != "" ==> prefix[0] != '-')
    ensures ReadNat(prefix + Digits(n, base), prefix, base) == Some(n)
    ensures (prefix + Digits(n, base))[0] != '-'
  {
    DigitsDenote(n, base);
    var s := prefix + Digits(n, base);
    assert s[|prefix|..] == Digits(n, base);
    assert DigitValue('-') == 16 && DigitValue(Digits(n, base)[0]) < base;
  }

  lemma MinusReads(t: string, s: string, prefix: string, base: nat)
    requires s == "-" + t
    ensures ReadInt(s, prefix, base) == Signed(-1, ReadNat(t, prefix, base))
  {
    assert s[0] == '-' && s[1..] == t;
  }

  lemma PlusReads(t: string, prefix: string, base: nat)
    requires t != "" && t[0] != '-'
    ensures ReadInt(t, prefix, base) == Signed(1, ReadNat(t, prefix, base))
  {
  }

  /** Numbers with a sign read back whatever their sign. */
  lemma PrefixedReadsBack(v: int, prefix: string, base: nat)
    requires 2 <= base <= 16 && (prefix != "" ==> prefix[0] != '-')
    ensures ReadInt(Prefixed(v, prefix, base), prefix, base) == Some(v)
  {
    var n: nat := if v < 0 then -v else v;
    var t := prefix + Digits(n, base);
    NatReadsBack(n, prefix, base);
    if v < 0 {
      MinusReads(t, Prefixed(v, prefix, base), prefix, base);
    } else {
      PlusReads(t, prefix, base);
    }
  }

  /** The bases the program has a format for. */
  predicate HasFormat(base: int) {
    base == 0 || base == 2 || base == 8 || base == 10 || base == 16
  }

  /** The text of a number parsed in a base, if there is a format for it. */
  function Render(base: int, v: int): (r: Option<string>)
    ensures r.Some? <==> HasFormat(base)
  {
    match base
    case 0 => Some(PadHexa(v))
    case 2 => Some(Prefixed(v, "0b", 2))
    case 8 => Some(Prefixed(v, "0o", 8))
    case 10 => Some(Prefixed(v, "", 10))
    case 16 => Some(PadHexa(v))
    case _ => None
  }

  /** Reading a printed number in the format of its base. */
  function ReadBack(base: int, s: string): Option<int>
    requires HasFormat(base)
  {
    match base
    case 2 => ReadInt(s, "0b", 2)
    case 8 => ReadInt(s, "0o", 8)
    case 10 => ReadInt(s, "", 10)
    case _ =>
      (match ReadHexa(s)
       case Some(n) => Some(n)
       case None => None)
  }

  /** In every base the program has a format for, what is printed reads back as the number, except
      exactly the negative numbers of the two bases that go through padhexa. */
  lemma RenderReadsBack(base: int, v: int)
    requires HasFormat(base)
    ensures ReadBack(base, Render(base, v).value) ==
      if v < 0 && (base == 0 || base == 16) then None else Some(v)
  {
    PadHexaReadsBack(v);
    PrefixedReadsBack(v, "0b", 2);
    PrefixedReadsBack(v, "0o", 8);
    PrefixedReadsBack(v, "", 10);
  }
}
