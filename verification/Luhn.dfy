/** The Luhn check (ISO/IEC 7812-1, Annex B) that separates payment card numbers from other
    digit strings, and the errors it is guaranteed to catch. */
module Luhn {

  type Digit = d: int | 0 <= d <= 9

  /** A digit's share of the sum: doubled in every second place from the right, less 9 above 9. */
  function Term(d: Digit, doubled: bool): nat {
    if !doubled then d else if 2 * d > 9 then 2 * d - 9 else 2 * d
  }

  /** A doubled digit counts with the sum of the two digits of its double, any other with its value. */
  lemma {:induction false} TermMeans(d: Digit)
    ensures Term(d, false) == d && Term(d, true) == 2 * d / 10 + 2 * d % 10
  {}

  function Sum(s: seq<Digit>): nat {
    if s == [] then 0 else Term(s[0], |s| % 2 == 0) + Sum(s[1..])
  }

  predicate Valid(s: seq<Digit>) {
    Sum(s) % 10 == 0
  }

  /** The source's right-to-left loop. */
  method LuhnValid(digits: seq<Digit>) returns (ok: bool)
    ensures ok <==> Valid(digits)
  {
    var sum, alt := 0, false;
    var i := |digits| - 1;
    while i >= 0
      invariant -1 <= i < |digits|
      invariant alt == ((|digits| - 1 - i) % 2 == 1)
      invariant sum == Sum(digits[i + 1..])
    {
      var d: int := digits[i];
      if alt {
        d := d * 2;
        if d > 9 {
          d := d - 9;
        }
      }
      assert digits[i..][1..] == digits[i + 1..];
      sum := sum + d;
      alt := !alt;
      i := i - 1;
    }
    return sum % 10 == 0;
  }

  lemma {:induction false} SumUpdate(s: seq<Digit>, i: nat, d: Digit)
    requires i < |s|
    ensures var doubled := (|s| - i) % 2 == 0;
            Sum(s[i := d]) - Term(d, doubled) == Sum(s) - Term(s[i], doubled)
  {
    if i == 0 {
      assert s[0 := d][1..] == s[1..];
    } else {
      assert s[i := d][1..] == s[1..][i - 1 := d];
      SumUpdate(s[1..], i - 1, d);
    }
  }

  /** From the right, every second digit is doubled, starting with the last but one. */
  lemma {:induction false} SumInPairs(s: seq<Digit>, d: Digit, e: Digit)
    ensures Sum([e] + s) == Sum(s) + if |s| % 2 == 0 then e else 2 * e / 10 + 2 * e % 10
    ensures Sum([d, e]) == 2 * d / 10 + 2 * d % 10 + e
  {
    TermMeans(d);
    TermMeans(e);
    assert ([e] + s)[1..] == s;
    assert Sum([e]) == e by {
      assert [e][1..] == [];
    }
    assert [d, e][1..] == [e];
  }

  lemma {:induction false} ValidShift(x: nat, y: nat)
    requires x % 10 == 0
    ensures y % 10 == 0 <==> (y - x) % 10 == 0
  {}

  lemma {:induction false} TermShift(d: Digit, e: Digit, doubled: bool)
    ensures (Term(d, doubled) - Term(e, doubled)) % 10 == 0 <==> d == e
  {}

  lemma {:induction false} SwapShift(a: Digit, b: Digit, doubled: bool)
    ensures (Term(b, doubled) - Term(a, doubled) + Term(a, !doubled) - Term(b, !doubled)) % 10 == 0
       <==> a == b || (a == 0 && b == 9) || (a == 9 && b == 0)
  {}

  /** MAIN: one wrong digit never goes unnoticed. */
  lemma {:induction false} OneDigitChangeIsCaught(s: seq<Digit>, i: nat, d: Digit)
    requires Valid(s) && i < |s|
    ensures Valid(s[i := d]) <==> d == s[i]
  {
    SumUpdate(s, i, d);
    TermShift(d, s[i], (|s| - i) % 2 == 0);
    ValidShift(Sum(s), Sum(s[i := d]));
  }

  lemma {:induction false} SwapSum(s: seq<Digit>, i: nat)
    requires i + 1 < |s|
    ensures var a, b, doubled := s[i], s[i + 1], (|s| - i) % 2 == 0;
            Sum(s[i := b][i + 1 := a]) - Sum(s) ==
            Term(b, doubled) - Term(a, doubled) + Term(a, !doubled) - Term(b, !doubled)
  {
    var a, b, doubled := s[i], s[i + 1], (|s| - i) % 2 == 0;
    var t := s[i := b];
    assert (|t| - (i + 1)) % 2 == 0 <==> !doubled;
    assert t[i + 1] == b;
    assert Sum(t) - Term(b, doubled) == Sum(s) - Term(a, doubled) by {
      SumUpdate(s, i, b);
    }
    assert Sum(t[i + 1 := a]) - Term(a, !doubled) == Sum(t) - Term(b, !doubled) by {
      SumUpdate(t, i + 1, a);
    }
  }

  /** MAIN: swapping two neighbours goes unnoticed exactly when they are equal or a 0 and a 9. */
  lemma {:induction false} SwapIsCaught(s: seq<Digit>, i: nat)
    requires Valid(s) && i + 1 < |s|
    ensures var a, b := s[i], s[i + 1];
            Valid(s[i := b][i + 1 := a]) <==> a == b || (a == 0 && b == 9) || (a == 9 && b == 0)
  {
    var a, b := s[i], s[i + 1];
    SwapSum(s, i);
    SwapShift(a, b, (|s| - i) % 2 == 0);
    ValidShift(Sum(s), Sum(s[i := b][i + 1 := a]));
  }

  lemma {:induction false} CheckDigitAdds(s: seq<Digit>, d: Digit)
    ensures Sum(s + [d]) == Sum(s + [0]) + d
  {
    SumUpdate(s + [0], |s|, d);
    assert (s + [0])[|s| := d] == s + [d];
  }

  /** Every digit string has exactly one check digit. */
  lemma {:induction false} CheckDigitIsUnique(s: seq<Digit>, d: Digit)
    ensures Valid(s + [d]) <==> d == (10 - Sum(s + [0]) % 10) % 10
  {
    CheckDigitAdds(s, d);
    Completes(Sum(s + [0]), d);
  }

  lemma {:induction false} Completes(n: nat, d: Digit)
    ensures (n + d) % 10 == 0 <==> d == (10 - n % 10) % 10
  {
    if n % 10 + d < 10 {
      assert (n + d) / 10 == n / 10;
    } else {
      assert (n + d) / 10 == n / 10 + 1;
    }
  }
}
