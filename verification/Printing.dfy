/** The two small printf implementations: alt_log_private_printf with its integer printing, and the
    hexadecimal output of alt_printf. */
module Printing {
  import opened Arithmetic
  import opened Machine32
  import opened Digits

  // ---- one integer -------------------------------------------------------------------------

  /** The format fields that matter for an integer; `width` is -1 when the format has none. */
  datatype IntFormat = IntFormat(zero: bool, base: Base, signed: bool, upper: bool, width: int)

  predicate Negative(f: IntFormat, v: u32) { f.signed && v >= 0x8000_0000 }

  function Magnitude(f: IntFormat, v: u32): nat {
    if Negative(f, v) then WRAP - v else v
  }

  /** The number the 32 bits stand for. */
  function Value(f: IntFormat, v: u32): int {
    if Negative(f, v) then v - WRAP else v
  }

  function Rep(c: char, n: int): (s: string)
    ensures |s| == (if n > 0 then n else 0) && forall d :: d in s ==> d == c
  {
    if n <= 0 then "" else [c] + Rep(c, n - 1)
  }

  function Sign(f: IntFormat, v: u32): string { if Negative(f, v) then "-" else "" }

  function Body(f: IntFormat, v: u32): string { Show(Magnitude(f, v), f.base, f.upper) }

  function Pad(f: IntFormat, v: u32): int { f.width - |Body(f, v)| - |Sign(f, v)| }

  /** Zeros go between the sign and the digits, blanks before the sign. */
  function Rendered(f: IntFormat, v: u32): string {
    if f.zero then Sign(f, v) + Rep('0', Pad(f, v)) + Body(f, v)
    else Rep(' ', Pad(f, v)) + Sign(f, v) + Body(f, v)
  }

  /** Reads an integer: blanks, an optional sign, digits. */
  function ReadInt(s: string, base: Base): int {
    if s == [] then 0
    else if s[0] == ' ' then ReadInt(s[1..], base)
    else if s[0] == '-' then 0 - Parse(s[1..], base)
    else Parse(s, base)
  }

  lemma {:induction false} ReadBlanks(blanks: string, s: string, base: Base)
    requires forall c :: c in blanks ==> c == ' '
    ensures ReadInt(blanks + s, base) == ReadInt(s, base)
  {
    if blanks == [] {
      assert blanks + s == s;
    } else {
      assert blanks[0] in blanks && (blanks + s)[1..] == blanks[1..] + s;
      assert forall c :: c in blanks[1..] ==> c in blanks;
      ReadBlanks(blanks[1..], s, base);
    }
  }

  lemma BodyReads(f: IntFormat, v: u32)
    ensures var s := Body(f, v); |s| > 0 && s[0] != ' ' && s[0] != '-' && Parse(s, f.base) == Magnitude(f, v)
    ensures Value(f, v) == if Sign(f, v) == "-" then 0 - Magnitude(f, v) else Magnitude(f, v)
    ensures Sign(f, v) in {"", "-"}
  {
    ParseShow(Magnitude(f, v), f.base, f.upper);
    assert Body(f, v)[0] in Body(f, v);
  }

  /** Printing is invertible: for every 32-bit value (0x80000000 included), base, width and zero flag,
      the output reads back as the value. */
  lemma PrintingInvertible(f: IntFormat, v: u32)
    ensures ReadInt(Rendered(f, v), f.base) == Value(f, v)
  {
    var digits, sign := Body(f, v), Sign(f, v);
    BodyReads(f, v);
    hide Magnitude, Negative, Show, Parse, ReadInt, Pad, Body, Sign, Value;
    if f.zero {
      var zeros := Rep('0', Pad(f, v));
      assert forall c :: c in zeros ==> c == '0';
      ParseZeros(zeros, digits, f.base);
      assert Rendered(f, v) == sign + (zeros + digits);
      SignedRead(sign, zeros + digits, f.base);
    } else {
      assert Rendered(f, v) == Rep(' ', Pad(f, v)) + (sign + digits);
      ReadBlanks(Rep(' ', Pad(f, v)), sign + digits, f.base);
      SignedRead(sign, digits, f.base);
    }
  }

  lemma SignedRead(sign: string, s: string, base: Base)
    requires sign in {"", "-"} && s != [] && s[0] != ' ' && s[0] != '-'
    ensures ReadInt(sign + s, base) == if sign == "-" then 0 - Parse(s, base) else Parse(s, base)
  {
    if sign == "-" {
      assert (sign + s)[1..] == s;
    } else {
      assert sign + s == s;
    }
  }

  /** And exactly sized: the width asked for, or what sign and digits need, if that is more; with no
      redundant leading digit. */
  lemma PrintingSized(f: IntFormat, v: u32)
    ensures var need := |Sign(f, v)| + |Body(f, v)|;
      |Rendered(f, v)| == if f.width > need then f.width else need
    ensures Magnitude(f, v) > 0 ==> Body(f, v)[0] != '0'
    ensures Magnitude(f, v) == 0 ==> Body(f, v) == "0"
  {
    ParseShow(Magnitude(f, v), f.base, f.upper);
  }

  /** Plain %x prints the shortest hexadecimal form. */
  lemma PlainHex(v: u32)
    ensures Rendered(IntFormat(false, 16, false, false, -1), v) == Show(v, 16, false)
  {
  }

  /** The character device the characters go to. */
  class Port {
    var out: string

    method PutChar(c: char)
      modifies this
      ensures out == old(out) + [c]
    {
      out := out + [c];
    }

    /** alt_log_repchar; a negative count prints nothing. */
    method RepChar(c: char, r: int)
      modifies this
      ensures out == old(out) + Rep(c, r)
    {
      var left := r;
      while left > 0
        invariant left > 0 ==> out + Rep(c, left) == old(out) + Rep(c, r)
        invariant left <= 0 ==> out == old(out) + Rep(c, r)
      {
        assert out + Rep(c, left) == (out + [c]) + Rep(c, left - 1);
        left := left - 1;
        PutChar(c);
      }
    }

    /** The largest place value and the number of digits. The 32-bit product never wraps. */
    method LargestPlace(v: u32, base: Base) returns (p: u32, count: nat)
      ensures count >= 1 && p == Power(base, count - 1) && v < Power(base, count) && (count == 1 || p <= v)
    {
      var shrink := v / base;
      p, count := 1, 1;
      FirstPlaces(v, base);
      hide Power, TopDigit;
      while shrink > 0
        invariant count >= 1 && p == Power(base, count - 1) && (count == 1 || p <= v)
        invariant shrink == TopDigit(v, base, count)
        decreases shrink
      {
        PlaceFits(v, base, count);
        p := p * base % WRAP;
        count := count + 1;
        shrink := shrink / base;
      }
      NoTopDigit(v, base, count);
    }

    /** The digits from place value p down. */
    method PutDigits(v0: u32, p0: u32, base: Base, upper: bool, ghost k0: nat)
      requires p0 == Power(base, k0) && v0 < Power(base, k0 + 1)
      modifies this
      ensures out == old(out) + FromTop(v0, base, k0, upper)
    {
      var v: nat, p: nat := v0, p0;
      ghost var k: int := k0;
      while p > 0
        invariant -1 <= k <= k0 && p == if k >= 0 then Power(base, k) else 0
        invariant k >= 0 ==> v < Power(base, k + 1)
        invariant k >= 0 ==> out + FromTop(v, base, k, upper) == old(out) + FromTop(v0, base, k0, upper)
        invariant k < 0 ==> out == old(out) + FromTop(v0, base, k0, upper)
        decreases k
      {
        FromTopStep(v, base, k, upper, out);
        var d := v / p;
        var c := if d <= 9 then '0' + d as char else (if upper then 'A' else 'a') + (d - 10) as char;
        PutChar(c);
        NextPlace(base, k);
        v := v % p;
        p := p / base;
        k := k - 1;
      }
    }

    /** Padding and sign. */
    method PutPrefix(zero: bool, sign: bool, room: int)
      modifies this
      ensures out == old(out) + Prefix(zero, sign, room)
    {
      var width := room;
      if zero {
        if sign {
          PutChar('-');
          width := width - 1;
        }
        RepChar('0', width);
      } else {
        if sign { width := width - 1; }
        RepChar(' ', width);
        if sign { PutChar('-'); }
      }
    }

    method StripSign(f: IntFormat, arg: u32) returns (v: u32, sign: bool)
      ensures v == Magnitude(f, arg) && sign == Negative(f, arg)
    {
      v, sign := arg, false;
      if f.signed && v >= 0x8000_0000 {
        v := (WRAP - 1 - v + 1) % WRAP;
        sign := true;
      }
    }

    /** The integer conversions of alt_log_private_printf. */
    method PutInteger(f: IntFormat, arg: u32)
      modifies this
      ensures out == old(out) + Rendered(f, arg)
    {
      hide *;
      var v, sign := StripSign(f, arg);
      var p, count := LargestPlace(v, f.base);
      TopIsShow(v, f.base, count - 1, f.upper);
      PutPrefix(f.zero, sign, f.width - count);
      PutDigits(v, p, f.base, f.upper, count - 1);
      PrefixAndBody(f, arg, f.width - count);
    }

    /** The position of the highest nonzero nibble. */
    method HighestNibble(v: u32) returns (shift: nat)
      requires v != 0
      ensures shift <= 28 && shift % 4 == 0 && Power(16, shift / 4) <= v < Power(16, shift / 4 + 1)
    {
      shift := 28;
      HighestPower();
      hide Power, Nibble;
      while Nibble(v, shift) == 0
        invariant shift <= 28 && shift % 4 == 0 && v < Power(16, shift / 4 + 1)
        decreases shift
      {
        SkipNibble(v, shift / 4);
        shift := shift - 4;
      }
      TopNibble(v, shift / 4);
    }

    /** One nibble, as alt_printf spells it. */
    method PutNibble(digit: nat)
      requires digit < 16
      modifies this
      ensures out == old(out) + [DigitChar(digit, false)]
    {
      PutChar(if digit <= 9 then '0' + digit as char else 'a' + (digit - 10) as char);
    }

    /** The nibbles of v from the one at first down. */
    method PutNibbles(v: u32, first: nat)
      requires first % 4 == 0 && v < Power(16, first / 4 + 1)
      modifies this
      ensures out == old(out) + FromTop(v, 16, first / 4, false)
    {
      var shift: int := first;
      ghost var rest: nat, k: int := v, first / 4;
      DivUnique(v, Power(16, first / 4 + 1), 0);
      hide Power, Nibble, TopDigit, TopRest, FromTop, DigitChar;
      while shift >= 0
        invariant -1 <= k && shift == 4 * k
        invariant k >= 0 ==> rest == v % Power(16, k + 1) < Power(16, k + 1)
        invariant k >= 0 ==> out + FromTop(rest, 16, k, false) == old(out) + FromTop(v, 16, first / 4, false)
        invariant k < 0 ==> out == old(out) + FromTop(v, 16, first / 4, false)
        decreases shift
      {
        ghost var before := out;
        NibbleIsTop(v, k);
        PutNibble(Nibble(v, shift));
        FromTopStep(rest, 16, k, false, before);
        rest, k := TopRest(rest, 16, k), k - 1;
        shift := shift - 4;
      }
    }

    /** The %x of alt_printf: find the highest nonzero nibble, then print nibble by nibble. */
    method PutHex(v: u32)
      modifies this
      ensures out == old(out) + Show(v, 16, false)
    {
      if v == 0 {
        PutChar('0');
        return;
      }
      var shift := HighestNibble(v);
      TopIsShow(v, 16, shift / 4, false);
      PutNibbles(v, shift);
    }
  }

  lemma FromTopStep(v: nat, base: Base, k: nat, upper: bool, before: string)
    requires v < Power(base, k + 1)
    ensures TopDigit(v, base, k) < base && TopRest(v, base, k) < Power(base, k)
    ensures var c := DigitChar(TopDigit(v, base, k), upper);
      before + FromTop(v, base, k, upper) == if k == 0 then before + [c]
        else (before + [c]) + FromTop(TopRest(v, base, k), base, k - 1, upper)
  {
    TopIsDigit(v, base, k);
  }

  function Prefix(zero: bool, sign: bool, room: int): string {
    var s, width := if sign then "-" else "", if sign then room - 1 else room;
    if zero then s + Rep('0', width) else Rep(' ', width) + s
  }

  lemma PrefixAndBody(f: IntFormat, v: u32, room: int)
    requires room == f.width - |Show(Magnitude(f, v), f.base, f.upper)|
    ensures Prefix(f.zero, Negative(f, v), room) + Show(Magnitude(f, v), f.base, f.upper) == Rendered(f, v)
  {
  }

  /** (v & (0xF << shift)) >> shift, for a shift that is a multiple of four. */
  function Nibble(v: u32, shift: nat): (d: nat)
    ensures d < 16
  {
    DivNat(v, Power(16, shift / 4));
    v / Power(16, shift / 4) % 16
  }

  /** With a digit at place value base^count, that place value fits, and the division goes on. */
  lemma PlaceFits(v: u32, base: Base, count: nat)
    requires count >= 1 && TopDigit(v, base, count) > 0
    ensures Power(base, count) == Power(base, count - 1) * base <= v
    ensures TopDigit(v, base, count) / base == TopDigit(v, base, count + 1) < TopDigit(v, base, count)
  {
    DivDiv(v, Power(base, count), base);
    Shrinks(v / Power(base, count), base);
    BelowPlace(v, Power(base, count));
  }

  lemma NoTopDigit(v: u32, base: Base, count: nat)
    requires TopDigit(v, base, count) == 0
    ensures v < Power(base, count)
  {
    BelowPlace(v, Power(base, count));
  }

  lemma Shrinks(q: nat, b: nat)
    requires b >= 2 && q > 0
    ensures q / b < q
  {
  }

  lemma FirstPlaces(v: nat, base: Base)
    ensures Power(base, 0) == 1 && TopDigit(v, base, 1) == v / base
  {
    assert Power(base, 1) == base * Power(base, 0);
  }

  lemma BelowPlace(v: nat, p: nat)
    requires p > 0
    ensures v / p == 0 <==> v < p
  {
  }

  lemma NextPlace(base: Base, k: nat)
    ensures Power(base, k) / base == if k > 0 then Power(base, k - 1) else 0
  {
    if k > 0 { DivUnique(Power(base, k), base, Power(base, k - 1)); }
  }

  lemma HighestPower()
    ensures Power(16, 8) == WRAP
  {
  }

  lemma SkipNibble(v: u32, k: nat)
    requires v > 0 && v < Power(16, k + 1) && Nibble(v, 4 * k) == 0
    ensures k > 0 && v < Power(16, k)
  {
    TopIsDigit(v, 16, k);
    BelowPlace(v, Power(16, k));
  }

  lemma TopNibble(v: u32, k: nat)
    requires v < Power(16, k + 1) && Nibble(v, 4 * k) != 0
    ensures Power(16, k) <= v && v % Power(16, k + 1) == v
  {
    BelowPlace(v, Power(16, k));
    DivUnique(v, Power(16, k + 1), 0);
  }

  lemma NibbleIsTop(v: u32, k: nat)
    ensures var rest := v % Power(16, k + 1);
      && 0 <= rest < Power(16, k + 1) && Nibble(v, 4 * k) == TopDigit(rest, 16, k)
      && TopRest(rest, 16, k) == v % Power(16, k)
  {
    DivNat(v, Power(16, k + 1));
    DivDiv(v, Power(16, k), 16);
  }
}
