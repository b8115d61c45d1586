// Printed numbers: how they are formatted, parsed back, and handed out, and why no two ever
// coincide.
module Numbers {
  import opened Sums

  // ---- Decimal text -----------------------------------------------------------------

  predicate IsDigit(c: char) { '0' <= c <= '9' }

  predicate AllDigits(s: string) { forall i :: 0 <= i < |s| ==> IsDigit(s[i]) }

  function DigitChar(d: nat): char
    requires d < 10
  {
    '0' + d as char
  }

  function Digits(n: nat): (s: string)
    ensures s != [] && AllDigits(s)
  {
    if n < 10 then [DigitChar(n)] else Digits(n / 10) + [DigitChar(n % 10)]
  }

  function PadStart(s: string, width: nat): string
    decreases width - |s|
  {
    if |s| >= width then s else PadStart("0" + s, width)
  }

  function Value(s: string): nat
    requires AllDigits(s)
  {
    if s == [] then 0 else 10 * Value(s[..|s| - 1]) + (s[|s| - 1] - '0') as nat
  }

  // parseInt: the value of the leading digits.
  function ParseInt(s: string): nat {
    Value(DigitPrefix(s, 0))
  }

  function DigitPrefix(s: string, i: nat): (p: string)
    requires i <= |s| && AllDigits(s[..i])
    ensures AllDigits(p)
    ensures AllDigits(s) ==> p == s
    decreases |s| - i
  {
    if i < |s| && IsDigit(s[i]) then DigitPrefix(s, i + 1) else s[..i]
  }

  lemma {:induction false} ValueOfDigits(n: nat)
    ensures Value(Digits(n)) == n
  {
    if n < 10 {
    } else {
      ValueOfDigits(n / 10);
      assert Digits(n)[..|Digits(n)| - 1] == Digits(n / 10);
    }
  }

  lemma {:induction false} LeadingZero(s: string)
    requires AllDigits(s)
    ensures Value("0" + s) == Value(s)
  {
    if s == [] {
      assert "0"[..0] == [];
    } else {
      LeadingZero(s[..|s| - 1]);
      assert ("0" + s)[..|s|] == "0" + s[..|s| - 1];
    }
  }

  lemma {:induction false} PaddingKeepsValue(s: string, width: nat)
    requires AllDigits(s)
    ensures AllDigits(PadStart(s, width)) && Value(PadStart(s, width)) == Value(s)
    ensures |s| <= width ==> |PadStart(s, width)| == width
    decreases width - |s|
  {
    if |s| >= width {
    } else {
      LeadingZero(s);
      PaddingKeepsValue("0" + s, width);
    }
  }

  function Padded(n: nat, width: nat): string { PadStart(Digits(n), width) }

  // Printing and parsing round-trip for every number, also past the padded width.
  lemma ParseIntRoundTrip(n: nat, width: nat)
    ensures AllDigits(Padded(n, width)) && ParseInt(Padded(n, width)) == n
  {
    ValueOfDigits(n);
    PaddingKeepsValue(Digits(n), width);
  }

  // ---- Fields between dashes --------------------------------------------------------

  function Dash(s: string, i: nat): (k: nat)
    requires i <= |s|
    ensures i <= k <= |s| && (k < |s| ==> s[k] == '-') && '-' !in s[i..k]
    decreases |s| - i
  {
    if i == |s| || s[i] == '-' then i else Dash(s, i + 1)
  }

  // split('-')[k]
  function Field(s: string, k: nat): string {
    var d := Dash(s, 0);
    if k == 0 then s[..d] else if d == |s| then "" else Field(s[d + 1..], k - 1)
  }

  lemma {:induction false} DashAt(s: string, i: nat, n: nat)
    requires i <= n <= |s| && (n < |s| ==> s[n] == '-')
    requires forall m :: i <= m < n ==> s[m] != '-'
    ensures Dash(s, i) == n
    decreases n - i
  {
  }

  lemma FirstField(head: string, tail: string, k: nat)
    requires '-' !in head
    ensures Field(head + "-" + tail, 0) == head
    ensures Field(head + "-" + tail, k + 1) == Field(tail, k)
  {
    var s := head + "-" + tail;
    DashAt(s, 0, |head|);
    assert s[|head| + 1..] == tail;
    assert s[..|head|] == head;
  }

  lemma OnlyField(s: string)
    requires '-' !in s
    ensures Field(s, 0) == s
  {
  }

  lemma ThreeFields(a: string, b: string, c: string)
    requires '-' !in a && '-' !in b && '-' !in c
    ensures var s := a + "-" + b + "-" + c;
            Field(s, 0) == a && Field(s, 1) == b && Field(s, 2) == c
  {
    var s := a + "-" + b + "-" + c;
    var tail := b + "-" + c;
    assert s == a + "-" + tail;
    FirstField(a, tail, 0);
    FirstField(a, tail, 1);
    FirstField(b, c, 0);
    OnlyField(c);
  }

  // ---- Account and loan numbers -----------------------------------------------------

  // Savings and credit numbers print the sequence before the year, loan numbers after it.
  datatype Series = Savings | Credit | Loans

  function Print(k: Series, sequence: nat, year: nat): string {
    match k
    case Savings => "SAV" + "-" + Padded(sequence, 3) + "-" + Digits(year)
    case Credit => "CRD" + "-" + Padded(sequence, 3) + "-" + Digits(year)
    case Loans => "LN" + "-" + Digits(year) + "-" + Padded(sequence, 5)
  }

  function SequenceOf(k: Series, number: string): nat {
    ParseInt(Field(number, if k == Loans then 2 else 1))
  }

  function YearOf(k: Series, number: string): nat {
    ParseInt(Field(number, if k == Loans then 1 else 2))
  }

  // What the numbers look like.
  lemma PrintedNumbers()
    ensures Print(Savings, 7, 2025) == "SAV-007-2025" && Print(Credit, 1234, 2025) == "CRD-1234-2025"
    ensures Print(Loans, 7, 2025) == "LN-2025-00007"
  {
    assert Digits(2025) == "2025" && Digits(7) == "7" && Digits(1234) == "1234";
    assert "0" + "7" == "07" && "0" + "07" == "007" && "0" + "007" == "0007" && "0" + "0007" == "00007";
    assert PadStart("7", 3) == PadStart("07", 3) == PadStart("007", 3) == "007";
    assert PadStart("7", 5) == PadStart("07", 5) == PadStart("007", 5) == PadStart("0007", 5) == "00007";
    hide Digits, PadStart;
  }

  // The LIKE patterns SAV-%-year, CRD-%-year and LN-year-%.
  predicate Like(k: Series, year: nat, number: string) {
    match k
    case Savings => Between(number, "SAV-", "-" + Digits(year))
    case Credit => Between(number, "CRD-", "-" + Digits(year))
    case Loans => "LN-" + Digits(year) + "-" <= number
  }

  predicate Between(s: string, head: string, tail: string) {
    |head| + |tail| <= |s| && head <= s && s[|s| - |tail|..] == tail
  }

  // Latest stored number of the year, plus one.
  function NextSequence(k: Series, stored: seq<string>, year: nat): nat {
    if stored == [] then 1
    else
      var last := stored[|stored| - 1];
      if Like(k, year, last) then SequenceOf(k, last) + 1
      else NextSequence(k, stored[..|stored| - 1], year)
  }

  // The numbers handed out when rows are created in the given years, in that order.
  function Issued(k: Series, years: seq<nat>): seq<string> {
    if years == [] then []
    else
      var stored := Issued(k, years[..|years| - 1]);
      var year := years[|years| - 1];
      stored + [Print(k, NextSequence(k, stored, year), year)]
  }

  lemma NoDash(s: string)
    requires AllDigits(s)
    ensures '-' !in s
  {
  }

  // A printed number gives back its sequence and its year.
  lemma PrintRoundTrip(k: Series, sequence: nat, year: nat)
    ensures SequenceOf(k, Print(k, sequence, year)) == sequence
    ensures YearOf(k, Print(k, sequence, year)) == year
  {
    var width := if k == Loans then 5 else 3;
    var (q, y) := (Padded(sequence, width), Digits(year));
    ParseIntRoundTrip(sequence, width);
    ParseIntRoundTrip(year, 0);
    NoDash(q);
    NoDash(y);
    match k
    case Savings => ThreeFields("SAV", q, y);
    case Credit => ThreeFields("CRD", q, y);
    case Loans => ThreeFields("LN", y, q);
  }

  lemma DigitsInjective(m: nat, n: nat)
    requires Digits(m) == Digits(n)
    ensures m == n
  {
    ValueOfDigits(m);
    ValueOfDigits(n);
  }

  lemma LikeSuffix(head: string, q: string, y: string, z: string)
    requires AllDigits(q) && AllDigits(y) && AllDigits(z)
    ensures Between(head + "-" + q + "-" + y, head + "-", "-" + z) <==> y == z
  {
    var s := head + "-" + q + "-" + y;
    var tail := "-" + z;
    assert s[|s| - |y| - 1] == '-' && s[|s| - |y|..] == y;
    if |tail| <= |s| {
      var t := s[|s| - |tail|..];
      if |z| < |y| {
        assert t[0] == s[|s| - |tail|] == y[|y| - |tail|];
      } else if |z| > |y| {
        assert t[|z| - |y|] == s[|s| - |y| - 1];
        assert tail[|z| - |y|] == z[|z| - |y| - 1];
      } else {
        assert t == "-" + y;
      }
    }
    if y == z {
      assert head + "-" <= s;
    }
  }

  lemma LikePrefix(head: string, q: string, y: string, z: string)
    requires AllDigits(q) && AllDigits(y) && AllDigits(z)
    ensures head + "-" + z + "-" <= head + "-" + y + "-" + q <==> y == z
  {
    var s := head + "-" + y + "-" + q;
    var p := head + "-" + z + "-";
    var n := |head| + 1;
    assert s[n + |y|] == '-' && s[n..n + |y|] == y;
    assert p[n + |z|] == '-' && p[n..n + |z|] == z;
    assert forall m :: n <= m < n + |y| ==> IsDigit(s[m]);
    assert forall m :: n <= m < n + |z| ==> IsDigit(p[m]);
    if p <= s {
      assert s[n + |z|] == '-';
      assert |z| == |y|;
      assert s[n..n + |z|] == p[n..n + |z|];
    }
  }

  // The pattern finds exactly the numbers of its own year.
  lemma LikeFindsTheYear(k: Series, sequence: nat, year: nat, wanted: nat)
    ensures Like(k, wanted, Print(k, sequence, year)) <==> wanted == year
  {
    var width := if k == Loans then 5 else 3;
    var (q, y, z) := (Padded(sequence, width), Digits(year), Digits(wanted));
    ParseIntRoundTrip(sequence, width);
    if y == z {
      DigitsInjective(year, wanted);
    }
    match k
    case Savings => LikeSuffix("SAV", q, y, z); assert "SAV" + "-" == "SAV-";
    case Credit => LikeSuffix("CRD", q, y, z); assert "CRD" + "-" == "CRD-";
    case Loans => LikePrefix("LN", q, y, z); assert "LN" + "-" + z + "-" == "LN-" + z + "-";
  }

  function IsYear(year: nat): nat -> int { (y: nat) => if y == year then 1 else 0 }

  // Reading the latest number back amounts to counting the year's rows.
  lemma {:induction false} NextSequenceCounts(k: Series, years: seq<nat>, year: nat)
    ensures NextSequence(k, Issued(k, years), year) == 1 + Sum(years, IsYear(year))
    decreases |years|
  {
    if years == [] {
    } else {
      var (prefix, last) := (years[..|years| - 1], years[|years| - 1]);
      var stored := Issued(k, prefix);
      var sequence := NextSequence(k, stored, last);
      var number := Print(k, sequence, last);
      NextSequenceCounts(k, prefix, last);
      NextSequenceCounts(k, prefix, year);
      PrintRoundTrip(k, sequence, last);
      LikeFindsTheYear(k, sequence, last, year);
      assert Issued(k, years) == stored + [number];
      assert (stored + [number])[..|stored|] == stored;
    }
  }

  lemma {:induction false} IssuedAt(k: Series, years: seq<nat>, i: nat)
    requires i < |years|
    ensures |Issued(k, years)| == |years|
    ensures Issued(k, years)[i] == Print(k, NextSequence(k, Issued(k, years[..i]), years[i]), years[i])
  {
    hide Print, NextSequence;
    var n := |years| - 1;
    if n == 0 {
    } else {
      IssuedAt(k, years[..n], if i < n then i else 0);
    }
    if i < n {
      assert years[..n][..i] == years[..i];
    }
  }

  lemma CountGrows(years: seq<nat>, i: nat, j: nat)
    requires i < j < |years| && years[i] == years[j]
    ensures Sum(years[..i], IsYear(years[i])) < Sum(years[..j], IsYear(years[i]))
  {
    var f := IsYear(years[i]);
    assert years[..j] == years[..i] + years[i..j];
    SumConcat(years[..i], years[i..j], f);
    SumAtLeastOne(years[i..j], f, 0);
  }

  // In every run, whatever the years, no number is handed out twice.
  lemma NumbersAreUnique(k: Series, years: seq<nat>, i: nat, j: nat)
    requires i < j < |years|
    ensures |Issued(k, years)| == |years| && Issued(k, years)[i] != Issued(k, years)[j]
  {
    IssuedAt(k, years, i);
    IssuedAt(k, years, j);
    var p := NextSequence(k, Issued(k, years[..i]), years[i]);
    var q := NextSequence(k, Issued(k, years[..j]), years[j]);
    PrintRoundTrip(k, p, years[i]);
    PrintRoundTrip(k, q, years[j]);
    NextSequenceCounts(k, years[..i], years[i]);
    NextSequenceCounts(k, years[..j], years[j]);
    if years[i] == years[j] {
      CountGrows(years, i, j);
    }
  }
}
