/** Positional notation: what a printed number means. */
module Digits {
  import opened Arithmetic
  import opened Machine32

  type Base = b: int | 2 <= b <= 16 witness 10

  function DigitChar(d: nat, upper: bool): (c: char)
    requires d < 16
    ensures DigitValue(c) == d && (c == '0' <==> d == 0) && c != ' ' && c != '-'
    ensures d <= 9 ==> '0' <= c <= '9'
  {
    if d <= 9 then '0' + d as char else (if upper then 'A' else 'a') + (d - 10) as char
  }

  function DigitValue(c: char): nat {
    if '0' <= c <= '9' then (c - '0') as nat
    else if 'a' <= c <= 'f' then (c - 'a') as nat + 10
    else if 'A' <= c <= 'F' then (c - 'A') as nat + 10
    else 0
  }

  /** The number a digit string denotes. */
  function Parse(s: string, base: Base): nat {
    if s == [] then 0 else Parse(s[..|s| - 1], base) * base + DigitValue(s[|s| - 1])
  }

  /** All digits but the last, and the last. */
  function Front(v: nat, base: Base): nat { v / base }
  function Last(v: nat, base: Base): nat { v % base }

  /** The shortest digit string of a number, most significant digit first. */
  function Show(v: nat, base: Base, upper: bool): (s: string)
    ensures |s| >= 1
    decreases v
  {
    DivMod(v, base);
    if v < base then [DigitChar(v, upper)]
    else Show(Front(v, base), base, upper) + [DigitChar(Last(v, base), upper)]
  }

  lemma {:induction false} ParseShow(v: nat, base: Base, upper: bool)
    ensures Parse(Show(v, base, upper), base) == v
    ensures v > 0 ==> Show(v, base, upper)[0] != '0'
    ensures forall c :: c in Show(v, base, upper) ==> c != ' ' && c != '-' && (base <= 10 ==> '0' <= c <= '9')
    decreases v
  {
    hide DigitChar, DigitValue;
    DivMod(v, base);
    if v < base {
      assert Show(v, base, upper)[..0] == [];
    } else {
      ParseShow(v / base, base, upper);
      var s := Show(v / base, base, upper);
      assert (s + [DigitChar(Last(v, base), upper)])[..|s|] == s;
    }
  }

  function Power(base: Base, k: nat): (p: nat)
    ensures p >= 1
  {
    if k == 0 then 1 else base * Power(base, k - 1)
  }

  /** Leading zeros do not change what a digit string denotes. */
  lemma {:induction false} ParseZeros(zeros: string, s: string, base: Base)
    requires forall c :: c in zeros ==> c == '0'
    ensures Parse(zeros + s, base) == Parse(s, base)
  {
    if s != [] {
      var k := |s| - 1;
      assert (zeros + s)[..|zeros + s| - 1] == zeros + s[..k];
      ParseZeros(zeros, s[..k], base);
    } else if zeros != [] {
      var k := |zeros| - 1;
      assert zeros[k] in zeros && zeros + s == zeros && zeros[..k] + [] == zeros[..k];
      assert forall c :: c in zeros[..k] ==> c in zeros;
      ParseZeros(zeros[..k], [], base);
    }
  }

  // ---- digits from the top -----------------------------------------------------------------

  /** The digit of v at place value base^k, if it has no higher ones, and what is left below it. */
  function TopDigit(v: nat, base: Base, k: nat): nat { DivNat(v, Power(base, k)); v / Power(base, k) }
  function TopRest(v: nat, base: Base, k: nat): nat { DivNat(v, Power(base, k)); v % Power(base, k) }

  /** The digits of v from place value base^k down. */
  function FromTop(v: nat, base: Base, k: nat, upper: bool): string
    requires v < Power(base, k + 1)
    decreases k
  {
    TopIsDigit(v, base, k);
    if k == 0 then [DigitChar(TopDigit(v, base, k), upper)]
    else [DigitChar(TopDigit(v, base, k), upper)] + FromTop(TopRest(v, base, k), base, k - 1, upper)
  }

  lemma TopIsDigit(v: nat, base: Base, k: nat)
    requires v < Power(base, k + 1)
    ensures TopDigit(v, base, k) < base && TopRest(v, base, k) < Power(base, k)
    ensures k == 0 ==> TopDigit(v, base, k) == v
  {
    DivBound(v, Power(base, k), base);
  }

  lemma LastIsDigit(v: nat, base: Base)
    ensures Last(v, base) < base && v == Front(v, base) * base + Last(v, base)
    ensures v < base ==> Front(v, base) == 0 && Last(v, base) == v
    ensures v >= base ==> 0 < Front(v, base) < v
  {
    DivMod(v, base);
    DivUnique(v, base, v / base);
  }

  /** Taking digits off at the top and at the bottom commute. */
  lemma TopAndLast(v: nat, base: Base, k: nat)
    requires 1 <= k && v < Power(base, k + 1)
    ensures Front(v, base) < Power(base, k)
    ensures TopDigit(v, base, k) == TopDigit(Front(v, base), base, k - 1)
    ensures Front(TopRest(v, base, k), base) == TopRest(Front(v, base), base, k - 1)
    ensures Last(TopRest(v, base, k), base) == Last(v, base)
  {
    SplitQuotient(v, base, Power(base, k - 1));
    FrontBelow(v, base, Power(base, k));
  }

  lemma FrontBelow(v: nat, base: Base, q: nat)
    requires v < base * q
    ensures Front(v, base) < q
  {
    DivMod(v, base);
    MulMonotone(q, v / base, base);
  }

  /** The last digit printed from the top is the last digit of the number. */
  lemma {:induction false} TopSnoc(v: nat, base: Base, k: nat, upper: bool)
    requires 1 <= k && v < Power(base, k + 1) && Front(v, base) < Power(base, k) && Last(v, base) < 16
    ensures FromTop(v, base, k, upper) ==
      FromTop(Front(v, base), base, k - 1, upper) + [DigitChar(Last(v, base), upper)]
    decreases k
  {
    assert Power(base, 1) == base * Power(base, 0) == base;
    hide DigitChar, DigitValue, TopDigit, TopRest, Front, Last, Power;
    TopAndLast(v, base, k);
    TopIsDigit(v, base, k);
    TopIsDigit(Front(v, base), base, k - 1);
    if k == 1 {
      TopIsDigit(TopRest(v, base, 1), base, 0);
      LastIsDigit(TopRest(v, base, 1), base);
    } else {
      TopSnoc(TopRest(v, base, k), base, k - 1, upper);
    }
  }

  /** From the largest place value on, printing from the top gives the shortest digit string. */
  lemma {:induction false} TopIsShow(v: nat, base: Base, k: nat, upper: bool)
    requires v < Power(base, k + 1) && (k == 0 || Power(base, k) <= v)
    ensures FromTop(v, base, k, upper) == Show(v, base, upper) && |Show(v, base, upper)| == k + 1
    decreases k
  {
    LastIsDigit(v, base);
    if k == 0 {
      TopIsDigit(v, base, 0);
    } else {
      PowerAbove(v, base, k);
      TopAndLast(v, base, k);
      hide DigitChar, DigitValue, TopDigit, TopRest, Front, Last, Power;
      TopSnoc(v, base, k, upper);
      TopIsShow(Front(v, base), base, k - 1, upper);
    }
  }

  lemma PowerAbove(v: nat, base: Base, k: nat)
    requires k >= 1 && Power(base, k) <= v
    ensures base <= v && (k == 1 || Power(base, k - 1) <= Front(v, base))
  {
    var p := Power(base, k - 1);
    DivMod(v, base);
    MulMonotone(1, p, base);
    MulMonotone(v / base + 1, p, base);
  }
}
