// Folding a table (a sequence of rows) with an integer-valued weight. Every running total
// of the bank is compared with such a fold.
module Sums {

  function Sum<T>(s: seq<T>, f: T -> int): int {
    if s == [] then 0 else Sum(s[..|s| - 1], f) + f(s[|s| - 1])
  }

  lemma SumAppend<T>(s: seq<T>, x: T, f: T -> int)
    ensures Sum(s + [x], f) == Sum(s, f) + f(x)
  {
  }

  lemma {:induction false} SumUpdate<T>(s: seq<T>, i: nat, x: T, f: T -> int)
    requires i < |s|
    ensures Sum(s[i := x], f) == Sum(s, f) - f(s[i]) + f(x)
  {
    var n := |s| - 1;
    if i == n {
      assert s[i := x][..n] == s[..n];
    } else {
      assert s[i := x][..n] == s[..n][i := x];
      SumUpdate(s[..n], i, x, f);
    }
  }

  lemma {:induction false} SumConcat<T>(s: seq<T>, t: seq<T>, f: T -> int)
    ensures Sum(s + t, f) == Sum(s, f) + Sum(t, f)
  {
    if t == [] {
      assert s + t == s;
    } else {
      var n := |t| - 1;
      assert (s + t)[..|s + t| - 1] == s + t[..n];
      SumConcat(s, t[..n], f);
    }
  }

  lemma {:induction false} SumMono<T>(s: seq<T>, t: seq<T>, f: T -> int, g: T -> int)
    requires |s| == |t|
    requires forall i :: 0 <= i < |s| ==> f(s[i]) <= g(t[i])
    ensures Sum(s, f) <= Sum(t, g)
  {
    if s == [] {
    } else {
      SumMono(s[..|s| - 1], t[..|t| - 1], f, g);
    }
  }

  lemma SumSame<T>(s: seq<T>, t: seq<T>, f: T -> int, g: T -> int)
    requires |s| == |t|
    requires forall i :: 0 <= i < |s| ==> f(s[i]) == g(t[i])
    ensures Sum(s, f) == Sum(t, g)
  {
  }

  lemma {:induction false} SumZero<T>(s: seq<T>, f: T -> int)
    requires forall i :: 0 <= i < |s| ==> f(s[i]) == 0
    ensures Sum(s, f) == 0
  {
    if s == [] {
    } else {
      SumZero(s[..|s| - 1], f);
    }
  }

  lemma {:induction false} SumWitness<T>(s: seq<T>, f: T -> int) returns (i: nat)
    requires Sum(s, f) > 0
    ensures i < |s| && f(s[i]) > 0
  {
    var n := |s| - 1;
    if f(s[n]) > 0 {
      i := n;
    } else {
      i := SumWitness(s[..n], f);
    }
  }

  lemma {:induction false} SumAtLeastOne<T>(s: seq<T>, f: T -> int, i: nat)
    requires i < |s|
    requires forall j :: 0 <= j < |s| ==> f(s[j]) >= 0
    ensures Sum(s, f) >= f(s[i])
  {
    var n := |s| - 1;
    if i < n {
      SumAtLeastOne(s[..n], f, i);
    } else {
      SumNonNegative(s[..n], f);
    }
  }

  lemma {:induction false} SumNonNegative<T>(s: seq<T>, f: T -> int)
    requires forall j :: 0 <= j < |s| ==> f(s[j]) >= 0
    ensures Sum(s, f) >= 0
  {
    if s == [] {
    } else {
      SumNonNegative(s[..|s| - 1], f);
    }
  }

  lemma {:induction false} SumAdd<T>(s: seq<T>, f: T -> int, g: T -> int, h: T -> int)
    requires forall i :: 0 <= i < |s| ==> h(s[i]) == f(s[i]) + g(s[i])
    ensures Sum(s, h) == Sum(s, f) + Sum(s, g)
  {
    if s == [] {
    } else {
      SumAdd(s[..|s| - 1], f, g, h);
    }
  }

  lemma {:induction false} SumConstant<T>(s: seq<T>, f: T -> int, c: int)
    requires forall i :: 0 <= i < |s| ==> f(s[i]) == c
    ensures Sum(s, f) == |s| * c
  {
    if s == [] {
    } else {
      SumConstant(s[..|s| - 1], f, c);
    }
  }

  // Two prefixes that differ by one weighty element and otherwise weightless ones.
  lemma {:induction false} SumSkip<T>(s: seq<T>, i: nat, j: nat, f: T -> int)
    requires i < j <= |s|
    requires forall m :: i < m < j ==> f(s[m]) == 0
    ensures Sum(s[..j], f) == Sum(s[..i], f) + f(s[i])
  {
    assert s[..j][..j - 1] == s[..j - 1];
    if i + 1 == j {
    } else {
      SumSkip(s, i, j - 1, f);
    }
  }
}
