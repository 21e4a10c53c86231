/** Section 7.19.6.1 of ISO/IEC 9899:1999 for the conversions alt_log_private_printf knows, and exactly
    when it follows it. */
module PrintfStandard {
  import opened Arithmetic
  import opened Machine32
  import opened Digits
  import opened Printing
  import opened Formats

  /** The precision, or -1 for none; a lone point asks for zero. */
  function PrecisionOf(precision: string): int {
    if precision == [] then -1 else if |precision| == 1 then 0 else Parse(precision[1..], 10)
  }

  /** Pieces whose meaning the standard defines: on c and s the 0 flag is undefined and l asks for wide
      characters, which this printer has not; on c a precision is undefined. */
  predicate Defined(p: Piece) {
    match p
    case Plain(_) => true
    case Percent => true
    case Convert(zero, _, precision, long, letter) =>
      IntLetter(letter) || (!zero && !long && (letter == 's' || (letter == 'c' && precision == [])))
  }

  /** The integer that a letter makes of an argument word: d and i take it in two's complement, u, o, x and X
      as unsigned. */
  function StandardValue(letter: char, v: u32): int {
    if letter == 'd' || letter == 'i' then (if v < 0x8000_0000 then v else v - 0x1_0000_0000) else v
  }

  function StandardRadix(letter: char): Base {
    match letter
    case 'o' => 8
    case 'x' => 16
    case 'X' => 16
    case _ => 10
  }

  /** The letters abcdef for x, and ABCDEF for X. */
  function StandardDigit(letter: char, d: nat): char
    requires d < 16
  {
    if letter == 'X' then "0123456789ABCDEF"[d] else "0123456789abcdef"[d]
  }

  function StandardNumeral(letter: char, n: nat): string {
    var radix := StandardRadix(letter);
    DivMod(n, radix);
    if n < radix then [StandardDigit(letter, n)]
    else StandardNumeral(letter, Front(n, radix)) + [StandardDigit(letter, Last(n, radix))]
  }

  function Abs(x: int): nat { if x < 0 then 0 - x else x }

  /** The digits of an integer: at least as many as the precision asks for, and none at all for zero with
      precision zero. */
  function StandardDigits(letter: char, precision: int, v: u32): string {
    var numeral := StandardNumeral(letter, Abs(StandardValue(letter, v)));
    if StandardValue(letter, v) == 0 && precision == 0 then "" else Rep('0', precision - |numeral|) + numeral
  }

  /** An integer conversion; a precision makes it ignore the 0 flag. */
  function StandardInteger(letter: char, zero: bool, width: int, precision: int, v: u32): string {
    var sign, digits := if StandardValue(letter, v) < 0 then "-" else "", StandardDigits(letter, precision, v);
    var fill := width - |sign| - |digits|;
    if zero && precision < 0 then sign + Rep('0', fill) + digits else Rep(' ', fill) + sign + digits
  }

  /** The argument of c, converted to an unsigned char. */
  function StandardChar(v: u32): char { (v % 0x100) as char }

  /** A string conversion: no more characters than the precision. */
  function StandardString(width: int, precision: int, s: string): string {
    var t := if 0 <= precision < |s| then s[..precision] else s;
    Rep(' ', width - |t|) + t
  }

  function StandardMeaning(p: Piece, arg: u32, memory: Memory): string
    requires Defined(p)
  {
    match p
    case Plain(text) => text
    case Percent => "%"
    case Convert(zero, width, precision, _, letter) =>
      if IntLetter(letter) then
        StandardInteger(letter, zero, WidthOf(width), PrecisionOf(precision), arg)
      else if letter == 's' then StandardString(WidthOf(width), PrecisionOf(precision), memory(arg))
      else Rep(' ', WidthOf(width) - 1) + [StandardChar(arg)]
  }

  // ---- integers ----------------------------------------------------------------------------

  /** Without a precision always. With one, never for zero without digits; where it adds no digits, unless
      the 0 flag pads; and where it adds digits, if the 0 flag happens to add as many. */
  predicate IntegerFollows(letter: char, zero: bool, width: int, precision: int, v: u32) {
    var value := StandardValue(letter, v);
    var digits, sign := |StandardNumeral(letter, Abs(value))|, if value < 0 then 1 else 0;
    || precision < 0
    || (!(value == 0 && precision == 0)
        && if precision <= digits then !zero || width <= digits + sign
           else zero && width == precision + sign)
  }

  /** The format fields with which the printer treats a letter. */
  function FormatOf(letter: char, zero: bool, width: int): IntFormat {
    IntSpec(Spec(Other, zero, width, -1), letter)
  }

  lemma IntegerFollowsIff(letter: char, zero: bool, width: int, precision: int, v: u32)
    requires IntLetter(letter)
    ensures Rendered(FormatOf(letter, zero, width), v) == StandardInteger(letter, zero, width, precision, v) <==>
      IntegerFollows(letter, zero, width, precision, v)
  {
    hide *;
    PrintsFormatIff(FormatOf(letter, zero, width), precision, v);
    SameInteger(letter, zero, width, precision, v);
    SameCondition(letter, zero, width, precision, v);
  }

  lemma SameInteger(letter: char, zero: bool, width: int, precision: int, v: u32)
    requires IntLetter(letter)
    ensures FormatInteger(FormatOf(letter, zero, width), precision, v)
         == StandardInteger(letter, zero, width, precision, v)
  {
    FormatIsStandard(letter, zero, width, v);
    hide FormatOf, StandardNumeral, Body, Sign, Magnitude, Rep;
  }

  lemma SameCondition(letter: char, zero: bool, width: int, precision: int, v: u32)
    requires IntLetter(letter)
    ensures PrintsFormat(FormatOf(letter, zero, width), precision, v)
       <==> IntegerFollows(letter, zero, width, precision, v)
  {
    FormatIsStandard(letter, zero, width, v);
    hide FormatOf, StandardNumeral, Body, Sign, Magnitude;
  }

  /** The printer's fields mean what the standard says of the letter. */
  lemma FormatIsStandard(letter: char, zero: bool, width: int, v: u32)
    requires IntLetter(letter)
    ensures var f := FormatOf(letter, zero, width); var value := StandardValue(letter, v);
      && f.zero == zero && f.width == width && Magnitude(f, v) == Abs(value)
      && Sign(f, v) == (if value < 0 then "-" else "") && Body(f, v) == StandardNumeral(letter, Abs(value))
  {
    NumeralIsShow(letter, Abs(StandardValue(letter, v)));
    hide StandardNumeral, Show;
  }

  lemma {:induction false} NumeralIsShow(letter: char, n: nat)
    ensures StandardNumeral(letter, n) == Show(n, StandardRadix(letter), letter == 'X')
    decreases n
  {
    var radix := StandardRadix(letter);
    DivMod(n, radix);
    if n >= radix {
      DigitIsStandard(letter, Last(n, radix));
      NumeralIsShow(letter, Front(n, radix));
    } else {
      DigitIsStandard(letter, n);
    }
    hide DigitChar, StandardDigit;
  }

  lemma DigitIsStandard(letter: char, d: nat)
    requires d < 16
    ensures StandardDigit(letter, d) == DigitChar(d, letter == 'X')
  {
  }

  /** What the standard asks for, in the printer's format fields. */
  function FormatDigits(f: IntFormat, precision: int, v: u32): string {
    if Magnitude(f, v) == 0 && precision == 0 then "" else Rep('0', precision - |Body(f, v)|) + Body(f, v)
  }

  function FormatInteger(f: IntFormat, precision: int, v: u32): string {
    var sign, digits := Sign(f, v), FormatDigits(f, precision, v);
    var fill := f.width - |sign| - |digits|;
    if f.zero && precision < 0 then sign + Rep('0', fill) + digits else Rep(' ', fill) + sign + digits
  }

  predicate PrintsFormat(f: IntFormat, precision: int, v: u32) {
    var digits, sign := |Body(f, v)|, |Sign(f, v)|;
    || precision < 0
    || (!(Magnitude(f, v) == 0 && precision == 0)
        && if precision <= digits then !f.zero || f.width <= digits + sign
           else f.zero && f.width == precision + sign)
  }

  lemma PrintsFormatIff(f: IntFormat, precision: int, v: u32)
    ensures Rendered(f, v) == FormatInteger(f, precision, v) <==> PrintsFormat(f, precision, v)
  {
    BodyReads(f, v);
    hide Body, Sign;
    if precision < 0 {
      assert Rep('0', precision - |Body(f, v)|) + Body(f, v) == Body(f, v);
    } else if Magnitude(f, v) == 0 && precision == 0 {
      NoDigits(f, v);
    } else if precision <= |Body(f, v)| {
      assert Rep('0', precision - |Body(f, v)|) + Body(f, v) == Body(f, v);
      FewDigits(f, precision, v);
    } else {
      ManyDigits(f, precision, v);
    }
  }

  /** Zero with precision zero: only blanks, while the printer prints a digit. */
  lemma NoDigits(f: IntFormat, v: u32)
    requires Magnitude(f, v) == 0
    ensures Rendered(f, v) != FormatInteger(f, 0, v)
  {
    var a, b := Rendered(f, v), FormatInteger(f, 0, v);
    assert Sign(f, v) == "" && Body(f, v) == "0";
    assert b == Rep(' ', f.width);
    assert a[|a| - 1] == '0';
    if b != "" { assert b[|b| - 1] in b; }
  }

  /** The precision adds nothing; only the padding of the 0 flag can differ. */
  lemma FewDigits(f: IntFormat, precision: int, v: u32)
    requires 0 <= precision <= |Body(f, v)| && !(Magnitude(f, v) == 0 && precision == 0)
    requires FormatDigits(f, precision, v) == Body(f, v) && Sign(f, v) in {"", "-"} && |Body(f, v)| > 0
    ensures Rendered(f, v) == FormatInteger(f, precision, v) <==> !f.zero || f.width <= |Body(f, v)| + |Sign(f, v)|
  {
    hide Body, Sign, FormatDigits;
    var pad := Pad(f, v);
    if f.zero && pad > 0 {
      assert FormatInteger(f, precision, v)[0] == ' ';
      var zeros := Rep('0', pad);
      assert zeros[0] in zeros && Rendered(f, v)[0] == if Sign(f, v) == "" then zeros[0] else '-';
    }
  }

  /** The precision adds zeros. */
  lemma ManyDigits(f: IntFormat, precision: int, v: u32)
    requires precision > |Body(f, v)| > 0 && Sign(f, v) in {"", "-"}
    ensures Rendered(f, v) == FormatInteger(f, precision, v) <==> f.zero && f.width == precision + |Sign(f, v)|
  {
    var body, sign, digits := Body(f, v), Sign(f, v), FormatDigits(f, precision, v);
    var zeros := Rep('0', precision - |body|);
    assert digits == zeros + body && |digits| == precision;
    hide Body, Sign, FormatDigits, Rep, Magnitude;
    if f.width < precision + |sign| {
      ShortWidth(f, precision, v);
    } else if !f.zero {
      BlankBeforeBody(Rep(' ', f.width - |sign| - precision), Rep(' ', f.width - |body| - |sign|), sign, zeros, body);
    } else if f.width == precision + |sign| {
      assert Rep(' ', 0) + sign + digits == sign + zeros + body;
    } else {
      BlankFirst(Rep(' ', f.width - |sign| - precision), Rep('0', f.width - |body| - |sign|), sign, zeros, body);
    }
  }

  lemma ShortWidth(f: IntFormat, precision: int, v: u32)
    requires precision > |Body(f, v)| && f.width < precision + |Sign(f, v)|
    ensures |Rendered(f, v)| < |FormatInteger(f, precision, v)|
  {
    hide Body, Sign;
  }

  lemma BlankBeforeBody(few: string, many: string, sign: string, zeros: string, body: string)
    requires |many| == |few| + |zeros| && |zeros| > 0 && sign in {"", "-"}
    requires (forall c :: c in many ==> c == ' ') && forall c :: c in zeros ==> c == '0'
    ensures many + sign + body != few + sign + (zeros + body)
  {
    var k := |many| + |sign| - 1;
    assert (few + sign + (zeros + body))[k] == zeros[|zeros| - 1] && zeros[|zeros| - 1] in zeros;
    assert (many + sign + body)[k] == if sign == "" then many[|many| - 1] else '-';
    assert many[|many| - 1] in many;
  }

  lemma BlankFirst(few: string, many: string, sign: string, zeros: string, body: string)
    requires |few| > 0 && |many| > 0 && sign in {"", "-"}
    requires (forall c :: c in few ==> c == ' ') && forall c :: c in many ==> c == '0'
    ensures sign + many + body != few + sign + (zeros + body)
  {
    assert few[0] in few && many[0] in many;
    assert (few + sign + (zeros + body))[0] == few[0];
    assert (sign + many + body)[0] == if sign == "" then many[0] else '-';
  }

  // ---- strings -----------------------------------------------------------------------------

  predicate Blank(s: string) { forall c :: c in s ==> c == ' ' }

  /** If the precision cuts nothing off; or if all that it cuts off, and all that remains, is padding. */
  predicate StringFollows(width: int, precision: int, s: string) {
    precision < 0 || precision >= |s| || (width >= |s| && Blank(s))
  }

  lemma StringFollowsIff(width: int, precision: int, s: string)
    ensures Rep(' ', width - |s|) + s == StandardString(width, precision, s) <==> StringFollows(width, precision, s)
  {
    if 0 <= precision < |s| {
      var t := s[..precision];
      if width < |s| {
        assert |StandardString(width, precision, s)| < |s|;
      } else {
        ShiftedIff(Rep(' ', width - |s|), Rep(' ', width - precision), s, precision);
      }
    }
  }

  lemma ShiftedIff(few: string, many: string, s: string, n: nat)
    requires n < |s| && Blank(few) && Blank(many) && |few| + |s| == |many| + n
    ensures few + s == many + s[..n] <==> Blank(s)
  {
    if few + s == many + s[..n] {
      forall i | 0 <= i < |s| ensures s[i] == ' ' { ShiftedBlank(few, many, s, n, i); }
    }
    if Blank(s) {
      BlankAt(few);
      BlankAt(many);
      BlankAt(s);
      forall k | 0 <= k < |few + s| ensures (few + s)[k] == (many + s[..n])[k] {
        assert (few + s)[k] == if k < |few| then few[k] else s[k - |few|];
        assert (many + s[..n])[k] == if k < |many| then many[k] else s[k - |many|];
      }
    }
  }

  lemma BlankAt(s: string)
    requires Blank(s)
    ensures forall k :: 0 <= k < |s| ==> s[k] == ' '
  {
    forall k | 0 <= k < |s| ensures s[k] == ' ' { assert s[k] in s; }
  }

  /** A string equal to itself shifted behind blanks is blank, from the front on. */
  lemma {:induction false} ShiftedBlank(few: string, many: string, s: string, n: nat, i: nat)
    requires n < |s| && Blank(many) && |few| + |s| == |many| + n && few + s == many + s[..n] && i < |s|
    ensures s[i] == ' '
    decreases i
  {
    var k := |few| + i;
    assert (few + s)[k] == s[i];
    if k < |many| {
      assert (many + s[..n])[k] == many[k] && many[k] in many;
    } else {
      assert (many + s[..n])[k] == s[k - |many|];
      ShiftedBlank(few, many, s, n, k - |many|);
    }
  }

  // ---- whole pieces ------------------------------------------------------------------------

  predicate Follows(p: Piece, arg: u32, memory: Memory) {
    match p
    case Plain(_) => true
    case Percent => true
    case Convert(zero, width, precision, _, letter) =>
      if IntLetter(letter) then
        IntegerFollows(letter, zero, WidthOf(width), PrecisionOf(precision), arg)
      else letter == 's' ==> StringFollows(WidthOf(width), PrecisionOf(precision), memory(arg))
  }

  /** Exactly where the printer prints what the standard asks for, over all pieces it defines. */
  lemma FollowsStandardIff(p: Piece, arg: u32, memory: Memory)
    requires Defined(p)
    ensures Meaning(p, arg, memory) == StandardMeaning(p, arg, memory) <==> Follows(p, arg, memory)
  {
    if p.Convert? && IntLetter(p.letter) {
      IntegerFollowsIff(p.letter, p.zero, WidthOf(p.width), PrecisionOf(p.precision), arg);
    } else if p.Convert? && p.letter == 's' {
      StringFollowsIff(WidthOf(p.width), PrecisionOf(p.precision), memory(arg));
    }
  }

  /** In particular in every format without a precision. */
  lemma FollowsWithoutPrecision(p: Piece, arg: u32, memory: Memory)
    requires Defined(p) && (p.Convert? ==> p.precision == [])
    ensures Meaning(p, arg, memory) == StandardMeaning(p, arg, memory)
  {
    FollowsStandardIff(p, arg, memory);
  }

  /** %.0d of zero should print nothing, %.3d of seven 007, and %.1s of ab only a. */
  lemma PrecisionIsIgnored(memory: Memory)
    requires memory(0) == "ab"
    ensures !Follows(Convert(false, "", ".0", false, 'd'), 0, memory)
    ensures !Follows(Convert(false, "", ".3", false, 'd'), 7, memory)
    ensures !Follows(Convert(false, "", ".1", false, 's'), 0, memory)
  {
    assert Parse("0", 10) == 0 && Parse("3", 10) == 3 && Parse("1", 10) == 1 by {
      assert "0"[..0] == "" && "3"[..0] == "" && "1"[..0] == "";
    }
    assert ".0"[1..] == "0" && ".3"[1..] == "3" && ".1"[1..] == "1";
  }

  // ---- what every letter prints ------------------------------------------------------------

  predicate DigitOf(letter: char, c: char) {
    if letter == 'o' then '0' <= c <= '7'
    else '0' <= c <= '9' || (letter == 'x' && 'a' <= c <= 'f') || (letter == 'X' && 'A' <= c <= 'F')
  }

  /** What the printer prints for an integer letter, with any flag, width and precision, reads back in the
      letter's radix as the value the standard gives the argument; and it is made of blanks, a sign and digits
      of the letter's case. */
  lemma LettersRead(p: Piece, arg: u32, memory: Memory)
    requires p.Convert? && IntLetter(p.letter)
    ensures ReadInt(Meaning(p, arg, memory), StandardRadix(p.letter)) == StandardValue(p.letter, arg)
    ensures forall c :: c in Meaning(p, arg, memory) ==> c == ' ' || c == '-' || DigitOf(p.letter, c)
  {
    var f := FormatOf(p.letter, p.zero, WidthOf(p.width));
    PrintingInvertible(f, arg);
    FormatIsStandard(p.letter, p.zero, WidthOf(p.width), arg);
    NumeralDigits(p.letter, Abs(StandardValue(p.letter, arg)));
    hide Body, Sign, StandardNumeral, ReadInt, Rep, Pad;
    assert Meaning(p, arg, memory) == Rendered(f, arg);
  }

  lemma {:induction false} NumeralDigits(letter: char, n: nat)
    requires IntLetter(letter)
    ensures forall c :: c in StandardNumeral(letter, n) ==> DigitOf(letter, c)
    decreases n
  {
    var radix := StandardRadix(letter);
    DivMod(n, radix);
    if n >= radix {
      DigitFits(letter, Last(n, radix));
      NumeralDigits(letter, Front(n, radix));
    } else {
      DigitFits(letter, n);
    }
    hide StandardDigit;
  }

  lemma DigitFits(letter: char, d: nat)
    requires IntLetter(letter) && d < StandardRadix(letter)
    ensures DigitOf(letter, StandardDigit(letter, d))
  {
  }

  // ---- whole formats -----------------------------------------------------------------------

  /** What the standard asks of a whole format, each conversion taking the next argument. */
  function StandardAll(ps: seq<Piece>, used: nat, args: Words, memory: Memory): string
    requires forall p :: p in ps ==> Defined(p)
  {
    if ps == [] then ""
    else
      StandardMeaning(ps[0], args(used), memory) +
        StandardAll(ps[1..], if ps[0].Convert? then used + 1 else used, args, memory)
  }

  predicate AllFollow(ps: seq<Piece>, used: nat, args: Words, memory: Memory) {
    ps == [] || (Follows(ps[0], args(used), memory)
      && AllFollow(ps[1..], if ps[0].Convert? then used + 1 else used, args, memory))
  }

  /** A format whose pieces all meet the condition is printed as the standard asks. */
  lemma FormatsFollow(m: Printer, ps: seq<Piece>, args: Words, memory: Memory)
    requires m.spec.pc == Chars && forall p :: p in ps ==> WellFormed(p) && Defined(p)
    requires AllFollow(ps, m.used, args, memory)
    ensures Print(m, SpellAll(ps), args, memory).out == m.out + StandardAll(ps, m.used, args, memory)
  {
    FormatsMean(m, ps, args, memory);
    PiecesFollow(ps, m.used, args, memory);
  }

  lemma {:induction false} PiecesFollow(ps: seq<Piece>, used: nat, args: Words, memory: Memory)
    requires (forall p :: p in ps ==> Defined(p)) && AllFollow(ps, used, args, memory)
    ensures MeaningAll(ps, used, args, memory) == StandardAll(ps, used, args, memory)
  {
    if ps != [] {
      assert ps[0] in ps && forall p :: p in ps[1..] ==> p in ps;
      FollowsStandardIff(ps[0], args(used), memory);
      hide Meaning, StandardMeaning, Follows;
      PiecesFollow(ps[1..], if ps[0].Convert? then used + 1 else used, args, memory);
    }
  }

  // ---- alt_printf --------------------------------------------------------------------------

  /** Any format is made of such pieces, perhaps with a lone % at its end. */
  datatype AltPart = Text(text: string) | Letter(letter: char)

  function AltSpell(ps: seq<AltPart>): string {
    if ps == [] then ""
    else (match ps[0] case Text(text) => text case Letter(c) => ['%', c]) + AltSpell(ps[1..])
  }

  /** c, s and x print as the standard asks of them without flag, width and precision, with the next argument;
      %% prints a percent sign, and any other letter nothing. */
  function AltMeaning(ps: seq<AltPart>, used: nat, args: Words, memory: Memory): string {
    if ps == [] then ""
    else match ps[0]
      case Text(text) => text + AltMeaning(ps[1..], used, args, memory)
      case Letter(c) =>
        if c in {'c', 's', 'x'} then
          StandardMeaning(Convert(false, "", "", false, c), args(used), memory)
            + AltMeaning(ps[1..], used + 1, args, memory)
        else (if c == '%' then "%" else "") + AltMeaning(ps[1..], used, args, memory)
  }

  lemma {:induction false} AltFormatsMean(ps: seq<AltPart>, cut: bool, used: nat, args: Words, memory: Memory)
    requires forall p :: p in ps && p.Text? ==> '%' !in p.text
    ensures AltPrint(AltSpell(ps) + if cut then "%" else "", used, args, memory) == AltMeaning(ps, used, args, memory)
    decreases |ps|
  {
    var end := if cut then "%" else "";
    if ps != [] {
      assert ps[0] in ps && forall p :: p in ps[1..] ==> p in ps;
      var rest := AltSpell(ps[1..]) + end;
      match ps[0]
      case Text(text) =>
        assert AltSpell(ps) + end == text + rest;
        AltText(text, rest, used, args, memory);
        AltFormatsMean(ps[1..], cut, used, args, memory);
      case Letter(c) =>
        assert AltSpell(ps) + end == ['%', c] + rest;
        AltLetter(c, rest, used, args, memory);
        AltFormatsMean(ps[1..], cut, if c in {'c', 's', 'x'} then used + 1 else used, args, memory);
        hide AltPrint, StandardMeaning;
    }
  }

  lemma {:induction false} AltText(text: string, rest: string, used: nat, args: Words, memory: Memory)
    requires '%' !in text
    ensures AltPrint(text + rest, used, args, memory) == text + AltPrint(rest, used, args, memory)
    decreases |text|
  {
    if text == [] {
      assert text + rest == rest;
    } else {
      assert text[0] in text && (text + rest)[1..] == text[1..] + rest;
      AltText(text[1..], rest, used, args, memory);
    }
  }

  lemma AltLetter(c: char, rest: string, used: nat, args: Words, memory: Memory)
    ensures AltPrint(['%', c] + rest, used, args, memory) ==
      if c in {'c', 's', 'x'} then
        StandardMeaning(Convert(false, "", "", false, c), args(used), memory) + AltPrint(rest, used + 1, args, memory)
      else (if c == '%' then "%" else "") + AltPrint(rest, used, args, memory)
  {
    var s := ['%', c] + rest;
    assert s[2..] == rest;
    if c in {'c', 's', 'x'} {
      var p := Convert(false, "", "", false, c);
      FollowsWithoutPrecision(p, args(used), memory);
      PlainHex(args(used));
      assert Meaning(p, args(used), memory) == AltPiece(c, args(used), memory);
      hide StandardMeaning, Meaning, Show;
    }
  }
}
