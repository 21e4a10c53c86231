/** The format loops: the state machine of alt_log_private_printf, what whole formats mean to it, and
    where alt_printf agrees with it. */
module Formats {
  import opened Digits
  import opened Machine32
  import opened Printing

  /** The variable arguments are the words laid out after the format; a string argument is an address,
      and the caller's memory says which characters stand there. */
  type Words = nat -> u32
  type Memory = u32 -> string

  // ---- the state machine -------------------------------------------------------------------

  datatype Pc = Chars | First | Other

  /** The position in the machine and the fields of the conversion being read; -1 is "absent". */
  datatype Spec = Spec(pc: Pc, zero: bool, before: int, after: int)

  datatype Printer = Printer(spec: Spec, used: nat, out: string)

  const IDLE: Spec := Spec(Chars, false, 0, 0)

  function Digit(c: char): nat { if '0' <= c <= '9' then (c - '0') as nat else 0 }

  function ReadDigit(s: Spec, d: nat): Spec {
    if s.after < 0 then s.(before := (if s.before < 0 then 0 else s.before * 10) + d)
    else s.(after := s.after * 10 + d)
  }

  predicate IntLetter(c: char) { c in {'d', 'i', 'u', 'o', 'x', 'X'} }

  function IntSpec(s: Spec, c: char): IntFormat {
    IntFormat(s.zero, if c == 'o' then 8 else if c in {'x', 'X'} then 16 else 10, c in {'d', 'i'}, c == 'X', s.before)
  }

  function AsChar(v: u32): char { (v % 256) as char }

  /** What a conversion prints for its argument word. */
  function Conversion(s: Spec, c: char, arg: u32, memory: Memory): string {
    if IntLetter(c) then Rendered(IntSpec(s, c), arg)
    else if c == 'c' then Rep(' ', s.before - 1) + [AsChar(arg)]
    else if c == 's' then Rep(' ', s.before - |memory(arg)|) + memory(arg)
    else ""
  }

  predicate Consumes(c: char) { IntLetter(c) || c == 'c' || c == 's' }

  predicate Modifier(c: char) { c == '.' || c == 'l' || '0' <= c <= '9' }

  function OtherChar(m: Printer, c: char, args: Words, memory: Memory): Printer {
    if c == '.' then m.(spec := m.spec.(after := 0))
    else if '0' <= c <= '9' then m.(spec := ReadDigit(m.spec, Digit(c)))
    else if c == 'l' then m
    else Printer(m.spec.(pc := Chars), if Consumes(c) then m.used + 1 else m.used,
                 m.out + Conversion(m.spec, c, args(m.used), memory))
  }

  function Next(m: Printer, c: char, args: Words, memory: Memory): Printer {
    match m.spec.pc
    case Chars => if c == '%' then m.(spec := Spec(First, false, -1, -1)) else m.(out := m.out + [c])
    case First =>
      if c == '0' then m.(spec := m.spec.(zero := true, pc := Other))
      else if c == '%' then m.(out := m.out + [c], spec := m.spec.(pc := Chars))
      else OtherChar(m.(spec := m.spec.(pc := Other)), c, args, memory)
    case Other => OtherChar(m, c, args, memory)
  }

  function Print(m: Printer, s: string, args: Words, memory: Memory): Printer
    decreases |s|
  {
    if s == [] then m else Print(Next(m, s[0], args, memory), s[1..], args, memory)
  }

  lemma {:induction false} PrintAppend(m: Printer, s: string, t: string, args: Words, memory: Memory)
    ensures Print(m, s + t, args, memory) == Print(Print(m, s, args, memory), t, args, memory)
    decreases |s|
  {
    if s == [] {
      assert s + t == t;
    } else {
      assert (s + t)[1..] == s[1..] + t;
      PrintAppend(Next(m, s[0], args, memory), s[1..], t, args, memory);
    }
  }

  // ---- its loop ----------------------------------------------------------------------------

  method PutString(port: Port, s: string)
    modifies port
    ensures port.out == old(port.out) + s
  {
    for i := 0 to |s|
      invariant port.out == old(port.out) + s[..i]
    {
      port.PutChar(s[i]);
      assert s[..i + 1] == s[..i] + [s[i]];
    }
    assert s[..|s|] == s;
  }

  /** The letter that ends a conversion. base, signed and upper hold their defaults. */
  method PutConversion(port: Port, spec: Spec, c: char, arg: u32, memory: Memory) returns (taken: nat)
    modifies port
    ensures port.out == old(port.out) + Conversion(spec, c, arg, memory)
    ensures taken == if Consumes(c) then 1 else 0
  {
    var base: Base, signed, upper := 10, true, false;
    taken := 1;
    if c == 'u' {
      signed := false;
    } else if c == 'o' {
      signed, base := false, 8;
    } else if c == 'x' {
      signed, base := false, 16;
    } else if c == 'X' {
      signed, base, upper := false, 16, true;
    }
    hide Rendered;
    if c == 'd' || c == 'i' || c == 'u' || c == 'o' || c == 'x' || c == 'X' {
      port.PutInteger(IntFormat(spec.zero, base, signed, upper, spec.before), arg);
    } else if c == 'c' {
      port.RepChar(' ', spec.before - 1);
      port.PutChar(AsChar(arg));
    } else if c == 's' {
      port.RepChar(' ', spec.before - |memory(arg)|);
      PutString(port, memory(arg));
    } else {
      taken := 0;
    }
  }

  /** One character of a conversion, after the first. */
  method PutOther(port: Port, spec0: Spec, c: char, arg: u32, memory: Memory) returns (spec: Spec, taken: nat)
    modifies port
    ensures forall m: Printer, args: Words {:trigger OtherChar(m, c, args, memory)} ::
      m.spec == spec0 && m.out == old(port.out) && args(m.used) == arg ==>
      OtherChar(m, c, args, memory) == Printer(spec, m.used + taken, port.out)
  {
    spec, taken := spec0, 0;
    if c == '.' {
      spec := spec.(after := 0);
    } else if '0' <= c <= '9' {
      var d := (c - '0') as nat;
      if spec.after < 0 {
        spec := spec.(before := if spec.before < 0 then 0 else spec.before * 10);
        spec := spec.(before := spec.before + d);
      } else {
        spec := spec.(after := spec.after * 10 + d);
      }
    } else if c != 'l' {
      taken := PutConversion(port, spec, c, arg, memory);
      spec := spec.(pc := Chars);
    }
  }

  /** alt_log_private_printf. */
  method LogPrintf(port: Port, fmt: string, args: Words, memory: Memory)
    modifies port
    ensures port.out == Print(Printer(IDLE, 0, old(port.out)), fmt, args, memory).out
  {
    var spec, used: nat := IDLE, 0;
    ghost var start := Printer(IDLE, 0, port.out);
    for i := 0 to |fmt|
      invariant Print(Printer(spec, used, port.out), fmt[i..], args, memory) == Print(start, fmt, args, memory)
    {
      ghost var m := Printer(spec, used, port.out);
      var c := fmt[i];
      Unroll(m, fmt, i, args, memory);
      if spec.pc == Chars {
        if c == '%' {
          spec := Spec(First, false, -1, -1);
        } else {
          port.PutChar(c);
        }
      } else if spec.pc == First && c == '0' {
        spec := spec.(zero := true, pc := Other);
      } else if spec.pc == First && c == '%' {
        port.PutChar(c);
        spec := spec.(pc := Chars);
      } else {
        var taken;
        spec, taken := PutOther(port, spec.(pc := Other), c, args(used), memory);
        used := used + taken;
        assert OtherChar(m.(spec := m.spec.(pc := Other)), c, args, memory) == Printer(spec, used, port.out);
      }
    }
  }

  lemma Unroll(m: Printer, s: string, i: nat, args: Words, memory: Memory)
    requires i < |s|
    ensures Print(m, s[i..], args, memory) == Print(Next(m, s[i], args, memory), s[i + 1..], args, memory)
  {
  }

  // ---- what formats mean -------------------------------------------------------------------

  /** The pieces of a format. Precision and `l` may be written in any conversion; unknown letters too. */
  datatype Piece =
    | Plain(text: string)
    | Percent
    | Convert(zero: bool, width: string, precision: string, long: bool, letter: char)

  predicate Digital(s: string) { forall c :: c in s ==> '0' <= c <= '9' }

  predicate WellFormed(p: Piece) {
    match p
    case Plain(text) => '%' !in text
    case Percent => true
    case Convert(zero, width, precision, long, letter) =>
      && Digital(width) && (zero || width == [] || width[0] != '0')
      && (precision == [] || (precision[0] == '.' && Digital(precision[1..])))
      && !Modifier(letter)
      && (letter == '%' ==> zero || width != [] || precision != [] || long)
  }

  function Spell(p: Piece): string {
    match p
    case Plain(text) => text
    case Percent => "%%"
    case Convert(zero, width, precision, long, letter) =>
      "%" + (if zero then "0" else "") + (width + (precision + ((if long then "l" else "") + [letter])))
  }

  function WidthOf(width: string): int { if width == [] then -1 else Parse(width, 10) }

  /** What a piece prints; neither the precision nor `l` matters. */
  function Meaning(p: Piece, arg: u32, memory: Memory): string {
    match p
    case Plain(text) => text
    case Percent => "%"
    case Convert(zero, width, _, _, letter) =>
      Conversion(Spec(Other, zero, WidthOf(width), -1), letter, arg, memory)
  }

  function Takes(p: Piece): nat { if p.Convert? && Consumes(p.letter) then 1 else 0 }

  function SpellAll(ps: seq<Piece>): string { if ps == [] then "" else Spell(ps[0]) + SpellAll(ps[1..]) }

  function MeaningAll(ps: seq<Piece>, used: nat, args: Words, memory: Memory): string {
    if ps == [] then ""
    else Meaning(ps[0], args(used), memory) + MeaningAll(ps[1..], used + Takes(ps[0]), args, memory)
  }

  /** The machine prints every format piece by piece, each conversion with the next argument. */
  lemma {:induction false} FormatsMean(m: Printer, ps: seq<Piece>, args: Words, memory: Memory)
    requires m.spec.pc == Chars && forall p :: p in ps ==> WellFormed(p)
    ensures var end := Print(m, SpellAll(ps), args, memory);
      end.spec.pc == Chars && end.out == m.out + MeaningAll(ps, m.used, args, memory)
    decreases |ps|
  {
    hide Print, Spell, Meaning, WellFormed;
    if ps == [] {
      PrintNothing(m, args, memory);
    } else {
      PieceMeans(m, ps[0], args, memory);
      PrintAppend(m, Spell(ps[0]), SpellAll(ps[1..]), args, memory);
      FormatsMean(Print(m, Spell(ps[0]), args, memory), ps[1..], args, memory);
    }
  }

  lemma PrintNothing(m: Printer, args: Words, memory: Memory)
    ensures Print(m, "", args, memory) == m
  {
  }

  lemma PrintOne(m: Printer, c: char, args: Words, memory: Memory)
    ensures Print(m, [c], args, memory) == Next(m, c, args, memory)
  {
  }

  lemma PieceMeans(m: Printer, p: Piece, args: Words, memory: Memory)
    requires m.spec.pc == Chars && WellFormed(p)
    ensures var end := Print(m, Spell(p), args, memory);
      end.spec.pc == Chars && end.used == m.used + Takes(p) && end.out == m.out + Meaning(p, args(m.used), memory)
  {
    match p
    case Plain(text) => PrintText(m, text, args, memory);
    case Percent =>
      assert Spell(p) == ['%'] + ['%'];
      PrintAppend(m, ['%'], ['%'], args, memory);
      PrintOne(m, '%', args, memory);
      PrintOne(Next(m, '%', args, memory), '%', args, memory);
    case Convert(_, _, _, _, _) => ConversionMeans(m, p, args, memory);
  }

  lemma {:induction false} PrintText(m: Printer, text: string, args: Words, memory: Memory)
    requires m.spec.pc == Chars && '%' !in text
    ensures Print(m, text, args, memory) == m.(out := m.out + text)
    decreases |text|
  {
    if text == [] {
      assert m.out + text == m.out;
    } else {
      assert text[0] in text;
      PrintText(m.(out := m.out + [text[0]]), text[1..], args, memory);
      assert m.out + [text[0]] + text[1..] == m.out + text;
    }
  }

  /** Digits before the point make the width, digits after it are read and forgotten. */
  lemma {:induction false} PrintDigits(m: Printer, s: string, args: Words, memory: Memory)
    requires m.spec.pc == Other && Digital(s)
    ensures var end := Print(m, s, args, memory);
      && end.spec.pc == Other && end.spec.zero == m.spec.zero && end.used == m.used && end.out == m.out
      && (m.spec.after >= 0 ==> end.spec.after >= 0 && end.spec.before == m.spec.before)
      && (m.spec.after < 0 && m.spec.before == -1 ==> end.spec.after < 0)
      && (m.spec.after < 0 && m.spec.before == -1 ==> end.spec.before == WidthOf(s))
    decreases |s|
  {
    if s != [] {
      var k := |s| - 1;
      assert s == s[..k] + [s[k]] && s[k] in s;
      assert forall c :: c in s[..k] ==> c in s;
      PrintDigits(m, s[..k], args, memory);
      PrintAppend(m, s[..k], [s[k]], args, memory);
      PrintOne(Print(m, s[..k], args, memory), s[k], args, memory);
      assert Parse(s, 10) == Parse(s[..k], 10) * 10 + Digit(s[k]);
      assert s[..k] == [] ==> Parse(s[..k], 10) == 0;
    }
  }

  /** Where a conversion stands before its width: after `%` and, if asked for, the zero flag. */
  function Opened(m: Printer, zero: bool): Printer { m.(spec := Spec(Other, zero, -1, -1)) }

  function Rest(p: Piece): string
    requires p.Convert?
  {
    p.width + (p.precision + ((if p.long then "l" else "") + [p.letter]))
  }

  lemma RestStarts(p: Piece)
    requires WellFormed(p) && p.Convert? && !p.zero
    ensures Rest(p) != [] && Rest(p)[0] != '0' && Rest(p)[0] != '%'
  {
    if p.width != [] {
      assert p.width[0] in p.width && Rest(p)[0] == p.width[0];
    }
  }

  lemma PrintOpening(m: Printer, p: Piece, args: Words, memory: Memory)
    requires m.spec.pc == Chars && WellFormed(p) && p.Convert?
    ensures Print(m, Spell(p), args, memory) == Print(Opened(m, p.zero), Rest(p), args, memory)
  {
    var m1 := m.(spec := Spec(First, false, -1, -1));
    var s := (if p.zero then "0" else "") + Rest(p);
    assert Spell(p) == ['%'] + s;
    assert Print(m, Spell(p), args, memory) == Print(m1, s, args, memory) by {
      PrintAppend(m, ['%'], s, args, memory);
      PrintOne(m, '%', args, memory);
    }
    if p.zero {
      assert s == ['0'] + Rest(p);
      PrintAppend(m1, ['0'], Rest(p), args, memory);
      PrintOne(m1, '0', args, memory);
    } else {
      RestStarts(p);
      FirstIsOther(m1, Rest(p), args, memory);
      assert s == Rest(p);
    }
  }

  lemma FirstIsOther(m: Printer, s: string, args: Words, memory: Memory)
    requires m.spec.pc == First && s != [] && s[0] != '0' && s[0] != '%'
    ensures Print(m, s, args, memory) == Print(m.(spec := m.spec.(pc := Other)), s, args, memory)
  {
  }

  lemma PrintPrecision(m: Printer, p: Piece, args: Words, memory: Memory)
    requires m.spec.pc == Other && WellFormed(p) && p.Convert?
    ensures var end := Print(m, p.precision, args, memory);
      end == m.(spec := end.spec) && end.spec == m.spec.(after := end.spec.after)
  {
    if p.precision != [] {
      PrintDigits(Next(m, '.', args, memory), p.precision[1..], args, memory);
    }
  }

  lemma PrintLong(m: Printer, long: bool, args: Words, memory: Memory)
    requires m.spec.pc == Other
    ensures Print(m, if long then "l" else "", args, memory) == m
  {
  }

  lemma ConversionMeans(m: Printer, p: Piece, args: Words, memory: Memory)
    requires m.spec.pc == Chars && WellFormed(p) && p.Convert?
    ensures var end := Print(m, Spell(p), args, memory);
      end.spec.pc == Chars && end.used == m.used + Takes(p) && end.out == m.out + Meaning(p, args(m.used), memory)
  {
    var long := if p.long then "l" else "";
    var m1 := Opened(m, p.zero);
    var m2 := Print(m1, p.width, args, memory);
    var m3 := Print(m2, p.precision, args, memory);
    PrintOpening(m, p, args, memory);
    PrintDigits(m1, p.width, args, memory);
    PrintPrecision(m2, p, args, memory);
    PrintLong(m3, p.long, args, memory);
    PrintOne(m3, p.letter, args, memory);
    LetterMeans(m3, p, args, memory);
    hide *;
    PrintAppend(m1, p.width, p.precision + (long + [p.letter]), args, memory);
    PrintAppend(m2, p.precision, long + [p.letter], args, memory);
    PrintAppend(m3, long, [p.letter], args, memory);
  }

  lemma LetterMeans(m: Printer, p: Piece, args: Words, memory: Memory)
    requires p.Convert? && WellFormed(p)
    requires m.spec.pc == Other && m.spec.zero == p.zero && m.spec.before == WidthOf(p.width)
    ensures var end := Next(m, p.letter, args, memory);
      end.spec.pc == Chars && end.used == m.used + Takes(p) && end.out == m.out + Meaning(p, args(m.used), memory)
  {
  }

  // ---- alt_printf --------------------------------------------------------------------------

  /** What alt_printf prints, from argument number used on. */
  function AltPrint(s: string, used: nat, args: Words, memory: Memory): string {
    if s == [] then ""
    else if s[0] != '%' then [s[0]] + AltPrint(s[1..], used, args, memory)
    else if |s| == 1 then ""
    else if s[1] == '%' then ['%'] + AltPrint(s[2..], used, args, memory)
    else if s[1] == 'c' then [AsChar(args(used))] + AltPrint(s[2..], used + 1, args, memory)
    else if s[1] == 'x' then Show(args(used), 16, false) + AltPrint(s[2..], used + 1, args, memory)
    else if s[1] == 's' then memory(args(used)) + AltPrint(s[2..], used + 1, args, memory)
    else AltPrint(s[2..], used, args, memory)
  }

  /** A format whose every `%` is followed by none of the letters only the log printer knows. */
  predicate Common(s: string)
    decreases |s|
  {
    s == [] ||
    if s[0] != '%' then Common(s[1..])
    else |s| == 1 || (!Modifier(s[1]) && (IntLetter(s[1]) ==> s[1] == 'x') && Common(s[2..]))
  }

  /** On such formats the two printers print the same characters, whatever the arguments. */
  lemma {:induction false} PrintersAgree(m: Printer, s: string, args: Words, memory: Memory)
    requires m.spec.pc == Chars && Common(s)
    ensures Print(m, s, args, memory).out == m.out + AltPrint(s, m.used, args, memory)
    decreases |s|
  {
    hide *;
    if s == [] || s == "%" {
      AtEnd(m, s, args, memory);
    } else if s[0] != '%' {
      AfterOne(m, s, args, memory);
      PrintersAgree(Next(m, s[0], args, memory), s[1..], args, memory);
      assert m.out + [s[0]] + AltPrint(s[1..], m.used, args, memory)
          == m.out + ([s[0]] + AltPrint(s[1..], m.used, args, memory));
    } else {
      var c, v := s[1], args(m.used);
      var m2 := Next(Next(m, s[0], args, memory), c, args, memory);
      AltPrintTwo(s, m.used, args, memory);
      PlainConversion(m, c, args, memory);
      AfterTwo(m, s, args, memory);
      PrintersAgree(m2, s[2..], args, memory);
      assert m.out + AltPiece(c, v, memory) + AltPrint(s[2..], m2.used, args, memory)
          == m.out + (AltPiece(c, v, memory) + AltPrint(s[2..], m2.used, args, memory));
    }
  }

  /** What the two letters of one of alt_printf's conversions print. */
  function AltPiece(c: char, v: u32, memory: Memory): string {
    if c == '%' then "%" else if c == 'c' then [AsChar(v)] else if c == 's' then memory(v)
    else if c == 'x' then Show(v, 16, false) else ""
  }

  lemma AltPrintTwo(s: string, used: nat, args: Words, memory: Memory)
    requires |s| > 1 && s[0] == '%' && Common(s)
    ensures Common(s[2..]) && !Modifier(s[1]) && (IntLetter(s[1]) ==> s[1] == 'x')
    ensures AltPrint(s, used, args, memory) == AltPiece(s[1], args(used), memory)
      + AltPrint(s[2..], if s[1] in {'x', 'c', 's'} then used + 1 else used, args, memory)
  {
    hide Show;
  }

  lemma AtEnd(m: Printer, s: string, args: Words, memory: Memory)
    requires m.spec.pc == Chars && (s == [] || s == "%")
    ensures Print(m, s, args, memory).out == m.out + AltPrint(s, m.used, args, memory)
  {
  }

  lemma AfterOne(m: Printer, s: string, args: Words, memory: Memory)
    requires m.spec.pc == Chars && Common(s) && s != [] && s[0] != '%'
    ensures Common(s[1..]) && AltPrint(s, m.used, args, memory) == [s[0]] + AltPrint(s[1..], m.used, args, memory)
    ensures Print(m, s, args, memory) == Print(Next(m, s[0], args, memory), s[1..], args, memory)
    ensures Next(m, s[0], args, memory) == m.(out := m.out + [s[0]])
  {
  }

  lemma AfterTwo(m: Printer, s: string, args: Words, memory: Memory)
    requires |s| > 1
    ensures Print(m, s, args, memory) ==
      Print(Next(Next(m, s[0], args, memory), s[1], args, memory), s[2..], args, memory)
  {
  }

  lemma PlainConversion(m: Printer, c: char, args: Words, memory: Memory)
    requires m.spec.pc == Chars && !Modifier(c) && (IntLetter(c) ==> c == 'x')
    ensures var m2 := Next(Next(m, '%', args, memory), c, args, memory); var v := args(m.used);
      && m2.spec.pc == Chars && m2.used == (if c in {'x', 'c', 's'} then m.used + 1 else m.used)
      && m2.out == m.out + AltPiece(c, v, memory)
  {
  }

  /** alt_printf. */
  method AltPrintf(port: Port, fmt: string, args: Words, memory: Memory)
    modifies port
    ensures port.out == old(port.out) + AltPrint(fmt, 0, args, memory)
  {
    var i: nat, used: nat := 0, 0;
    while i < |fmt|
      invariant i <= |fmt|
      invariant port.out + AltPrint(fmt[i..], used, args, memory) == old(port.out) + AltPrint(fmt, 0, args, memory)
    {
      ghost var before, was := port.out, used;
      var c := fmt[i];
      ghost var at := i;
      i := i + 1;
      if c != '%' {
        port.PutChar(c);
      } else {
        if i == |fmt| {
          AltUnroll(fmt, at, was, args, memory, before);
          return;
        }
        c := fmt[i];
        i := i + 1;
        if c == '%' {
          port.PutChar(c);
        } else if c == 'c' {
          port.PutChar(AsChar(args(used)));
          used := used + 1;
        } else if c == 'x' {
          port.PutHex(args(used));
          used := used + 1;
        } else if c == 's' {
          PutString(port, memory(args(used)));
          used := used + 1;
        }
      }
      AltUnroll(fmt, at, was, args, memory, before);
    }
  }

  lemma AltUnroll(s: string, i: nat, used: nat, args: Words, memory: Memory, before: string)
    requires i < |s|
    ensures before + AltPrint(s[i..], used, args, memory) ==
      if s[i] != '%' then (before + [s[i]]) + AltPrint(s[i + 1..], used, args, memory)
      else if i + 1 == |s| then before
      else if s[i + 1] == '%' then (before + ['%']) + AltPrint(s[i + 2..], used, args, memory)
      else if s[i + 1] == 'c' then (before + [AsChar(args(used))]) + AltPrint(s[i + 2..], used + 1, args, memory)
      else if s[i + 1] == 'x' then (before + Show(args(used), 16, false)) + AltPrint(s[i + 2..], used + 1, args, memory)
      else if s[i + 1] == 's' then (before + memory(args(used))) + AltPrint(s[i + 2..], used + 1, args, memory)
      else before + AltPrint(s[i + 2..], used, args, memory)
  {
  }
}
