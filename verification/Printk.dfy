/** The format scanner of lib/printk.c: literal text between two indices, and one
    argument for each specifier other than "%%". */
module Printk {
  import opened CString
  import opened Numerals

  /** What va_arg takes: a 64-bit word, or a string. */
  datatype Arg = Word(w: nat) | Str(s: string)

  /** A conversion: the length character, or '\0', and the conversion character. */
  datatype Spec = NoSpec | Spec(size: char, kind: char) {
    function Length(): (n: nat)
      requires Spec?
    {
      if size == '\0' then 2 else 3
    }
  }

  /** The conversion that starts at index i: a percent sign, then one of the eight
      conversions, or a length and one of the four numeric conversions. */
  function SpecAt(fmt: string, i: nat): (r: Spec)
    ensures r.Spec? ==> i + r.Length() <= |fmt| && fmt[i] == '%'
  {
    if i + 2 <= |fmt| && fmt[i] == '%' && fmt[i + 1] in "%duxXcps" then Spec('\0', fmt[i + 1])
    else if i + 3 <= |fmt| && fmt[i] == '%' && fmt[i + 1] in "hlq" && fmt[i + 2] in "duxX"
      then Spec(fmt[i + 1], fmt[i + 2])
    else NoSpec
  }

  /** The format's character at i; the terminator behind its end. */
  function CharAt(fmt: string, i: nat): (c: char) {
    if i < |fmt| then fmt[i] else '\0'
  }

  datatype FormatInfo = FormatInfo(length: nat, lengthSpecifier: char, formatSpecifier: char)

  /** check_format_spec, with info cleared by its caller. */
  method CheckFormatSpec(fmt: string, i: nat) returns (valid: bool, info: FormatInfo)
    requires '\0' !in fmt
    ensures valid <==> SpecAt(fmt, i).Spec?
    ensures valid ==> SpecAt(fmt, i) == Spec(info.lengthSpecifier, info.formatSpecifier)
                      && info.length == SpecAt(fmt, i).Length()
  {
    info := FormatInfo(0, '\0', '\0');
    if CharAt(fmt, i) != '%' {
      return false, info;
    }
    var p := i;
    if CharAt(fmt, p + 1) in ['h', 'l', 'q'] {
      p := p + 1;
      info := info.(lengthSpecifier := CharAt(fmt, p));
    }
    var c := CharAt(fmt, p + 1);
    if info.lengthSpecifier != '\0' {
      if c in ['d', 'u', 'x', 'X'] {
        info := info.(length := 3, formatSpecifier := c);
        valid := true;
      } else {
        valid := false;
      }
      return;
    }
    if c in ['%', 'd', 'u', 'x', 'X', 'c', 'p', 's'] {
      info := info.(length := 2, formatSpecifier := c);
      valid := true;
    } else {
      valid := false;
    }
  }

  // ----- what a format means -----

  /** The low `bits` bits of w as a signed number. */
  function SignedBits(w: nat, modulus: nat): (n: int)
    requires modulus > 1 && modulus % 2 == 0
    ensures -(modulus / 2) <= n < modulus / 2
  {
    var low := w % modulus;
    if low < modulus / 2 then low else low - modulus
  }

  /** The number of values of the C type that a length character selects. */
  function Modulus(size: char): (m: nat)
    ensures m > 1 && m % 2 == 0 && m <= 0x1_0000_0000_0000_0000
  {
    if size == 'h' then 0x1_0000 else if size == '\0' then 0x1_0000_0000 else 0x1_0000_0000_0000_0000
  }

  /** The text a conversion prints for its argument. */
  function Show(spec: Spec, arg: Arg): (t: string)
    requires spec.Spec? && spec.kind != '%' && (spec.kind == 's' <==> arg.Str?)
  {
    match spec.kind
    case 'd' => ItoaText(SignedBits(arg.w, Modulus(spec.size)), 10, false)
    case 'u' => Numeral(arg.w % Modulus(spec.size), 10, false)
    case 'x' => Numeral(arg.w % Modulus(spec.size), 16, false)
    case 'X' => Numeral(arg.w % Modulus(spec.size), 16, true)
    case 'p' => "0x" + Numeral(arg.w % 0x1_0000_0000_0000_0000, 16, false)
    case 's' => arg.s
    case _ => Until([(arg.w % 256) as char], '\0')
  }

  /** What an unsigned conversion prints: the value of the argument's C type, in
      decimal or in hexadecimal letters of the case of the conversion character. */
  lemma UnsignedShown(size: char, kind: char, w: nat)
    requires size in ['\0', 'h', 'l', 'q'] && kind in "uxX"
    ensures var t, base := Show(Spec(size, kind), Word(w)), if kind == 'u' then 10 else 16;
      && Canonical(t, base, kind == 'X')
      && Read(t, base) == w % (if size == 'h' then 0x1_0000
                               else if size == '\0' then 0x1_0000_0000 else 0x1_0000_0000_0000_0000)
    ensures kind == 'x' ==> forall c :: c in Show(Spec(size, kind), Word(w)) ==> '0' <= c <= '9' || 'a' <= c <= 'f'
    ensures kind == 'X' ==> forall c :: c in Show(Spec(size, kind), Word(w)) ==> '0' <= c <= '9' || 'A' <= c <= 'F'
  {
    var n := w % Modulus(size);
    NumeralReadsBack(n, if kind == 'u' then 10 else 16, kind == 'X');
    NumeralReadsBack(n, 10, false);
    if kind != 'u' {
      HexLetters(Show(Spec(size, kind), Word(w)), kind == 'X');
    }
    hide Numeral, Canonical, Read;
  }

  /** The digits of a hexadecimal. */
  lemma HexLetters(t: string, caps: bool)
    requires Canonical(t, 16, caps)
    ensures forall c :: c in t ==> '0' <= c <= '9' || if caps then 'A' <= c <= 'F' else 'a' <= c <= 'f'
  {
  }

  /** A signed conversion prints the number of that many bits that is congruent to the
      argument, in decimal; of the least 64-bit number only the sign. */
  lemma SignedShown(size: char, w: nat)
    requires size in ['\0', 'h', 'l', 'q']
    ensures var t := Show(Spec(size, 'd'), Word(w));
      var m := if size == 'h' then 0x1_0000 else if size == '\0' then 0x1_0000_0000 else 0x1_0000_0000_0000_0000;
      var low := w % m;
      if low < m / 2 then Canonical(t, 10, false) && Read(t, 10) == low
      else if low == 0x8000_0000_0000_0000 then t == "-"
      else |t| > 1 && t[0] == '-' && Canonical(t[1..], 10, false) && Read(t[1..], 10) == m - low
  {
    var m := Modulus(size);
    var n := SignedBits(w, m);
    ItoaRightIff(n, false);
    NumeralReadsBack(if n < 0 then -n else n, 10, false);
    hide Numeral, Canonical, Read;
    if INT64_MIN < n < 0 {
      assert ItoaText(n, 10, false)[1..] == Numeral(-n, 10, false);
    }
  }

  /** A pointer is "0x" and lower-case hexadecimal, a string itself, and a character
      the low byte of its argument, unless that is the terminator. */
  lemma OthersShown(w: nat, s: string)
    ensures var t := Show(Spec('\0', 'p'), Word(w));
      |t| > 2 && t[..2] == "0x" && Canonical(t[2..], 16, false) && Read(t[2..], 16) == w % 0x1_0000_0000_0000_0000
    ensures Show(Spec('\0', 's'), Str(s)) == s
    ensures Show(Spec('\0', 'c'), Word(w)) == if w % 256 == 0 then "" else [(w % 256) as char]
  {
    var n := w % 0x1_0000_0000_0000_0000;
    NumeralReadsBack(n, 16, false);
    hide Numeral, Canonical, Read;
    assert ("0x" + Numeral(n, 16, false))[2..] == Numeral(n, 16, false);
  }

  /** The argument has the kind the conversion asks for, a string is one that can be
      terminated, and a decimal fits the 20-byte buffer it is composed in. */
  predicate ArgOk(spec: Spec, arg: Arg)
    requires spec.Spec? && spec.kind != '%'
  {
    && (spec.kind == 's' <==> arg.Str?)
    && (arg.Str? ==> '\0' !in arg.s)
    && (spec.kind in "du" ==> |Show(spec, arg)| < FORMAT_BUFF)
  }

  /** Only long decimals of 19 digits and more can miss the buffer. */
  lemma DecimalFitsIff(spec: Spec, w: nat)
    requires spec.Spec? && spec.kind in "du" && w < 0x1_0000_0000_0000_0000
    ensures ArgOk(spec, Word(w)) <==>
      || spec.size in ['h', '\0']
      || (spec.kind == 'u' && w < 10_000_000_000_000_000_000)
      || (spec.kind == 'd' && (w <= 0x8000_0000_0000_0000 || w > 0x1_0000_0000_0000_0000 - 1_000_000_000_000_000_000))
  {
    hide Numeral, ItoaText;
    if spec.kind == 'u' {
      UnsignedFitsIff(w % Modulus(spec.size));
    } else {
      SignedFitsIff(SignedBits(w, Modulus(spec.size)));
    }
  }

  /** One argument for each conversion that takes one. */
  predicate ArgsOk(fmt: string, i: nat, args: seq<Arg>)
    decreases |fmt| - i
  {
    if i >= |fmt| then true
    else match SpecAt(fmt, i)
      case NoSpec => ArgsOk(fmt, i + 1, args)
      case Spec(_, kind) =>
        var next := i + SpecAt(fmt, i).Length();
        if kind == '%' then ArgsOk(fmt, next, args)
        else args != [] && ArgOk(SpecAt(fmt, i), args[0]) && ArgsOk(fmt, next, args[1..])
  }

  /** The text of the format from index i on, read from left to right: a conversion
      prints its argument, any other character stands for itself. */
  function Render(fmt: string, i: nat, args: seq<Arg>): (t: string)
    requires ArgsOk(fmt, i, args)
    decreases |fmt| - i
  {
    if i >= |fmt| then ""
    else match SpecAt(fmt, i)
      case NoSpec => [fmt[i]] + Render(fmt, i + 1, args)
      case Spec(_, kind) =>
        var next := i + SpecAt(fmt, i).Length();
        if kind == '%' then "%" + Render(fmt, next, args)
        else Show(SpecAt(fmt, i), args[0]) + Render(fmt, next, args[1..])
  }

  /** A text with every percent sign doubled. */
  function Escape(text: string): (fmt: string) {
    if text == "" then "" else (if text[0] == '%' then "%%" else [text[0]]) + Escape(text[1..])
  }

  /** The text s stands in the format from index i on. */
  predicate Stands(fmt: string, i: nat, s: string) {
    i + |s| <= |fmt| && forall k :: 0 <= k < |s| ==> fmt[i + k] == s[k]
  }

  lemma StandsAt(fmt: string, i: nat, s: string, k: nat)
    requires Stands(fmt, i, s) && k < |s|
    ensures i + k < |fmt| && fmt[i + k] == s[k]
  {
  }

  lemma StandsParts(fmt: string, i: nat, a: string, b: string)
    requires Stands(fmt, i, a + b)
    ensures Stands(fmt, i, a) && Stands(fmt, i + |a|, b)
  {
    forall k | 0 <= k < |a|
      ensures fmt[i + k] == a[k]
    {
      assert (a + b)[k] == a[k];
    }
    forall k | 0 <= k < |b|
      ensures fmt[i + |a| + k] == b[k]
    {
      assert (a + b)[|a| + k] == b[k];
    }
  }

  /** Rendering undoes escaping, whatever follows. */
  lemma {:induction false} EscapedPrefix(text: string, i: nat, fmt: string, args: seq<Arg>)
    requires Stands(fmt, i, Escape(text)) && ArgsOk(fmt, i + |Escape(text)|, args)
    ensures ArgsOk(fmt, i, args) && Render(fmt, i, args) == text + Render(fmt, i + |Escape(text)|, args)
    decreases |text|
  {
    hide Render, ArgsOk, SpecAt;
    if text != "" {
      var first := if text[0] == '%' then "%%" else [text[0]];
      StandsParts(fmt, i, first, Escape(text[1..]));
      EscapedPrefix(text[1..], i + |first|, fmt, args);
      EscapedChar(text[0], i, fmt, args);
      assert text == [text[0]] + text[1..];
    }
  }

  lemma EscapedChar(c: char, i: nat, fmt: string, args: seq<Arg>)
    requires var first := if c == '%' then "%%" else [c];
      Stands(fmt, i, first) && ArgsOk(fmt, i + |first|, args)
    ensures var first := if c == '%' then "%%" else [c];
      ArgsOk(fmt, i, args) && Render(fmt, i, args) == [c] + Render(fmt, i + |first|, args)
  {
    hide Show, ArgOk;
    var first := if c == '%' then "%%" else [c];
    StandsAt(fmt, i, first, 0);
    if c == '%' {
      StandsAt(fmt, i, first, 1);
      assert SpecAt(fmt, i) == Spec('\0', '%');
    } else {
      assert SpecAt(fmt, i) == NoSpec;
    }
  }

  /** So any text can be printed literally. */
  lemma EscapeRoundTrip(text: string)
    ensures ArgsOk(Escape(text), 0, []) && Render(Escape(text), 0, []) == text
  {
    RenderEnd(Escape(text), |Escape(text)|, []);
    EscapedPrefix(text, 0, Escape(text), []);
  }

  // ----- formats that are composed from text and conversions -----

  datatype Piece = Text(text: string) | Conversion(size: char, kind: char, arg: Arg)

  /** Any of the four lengths goes with a numeric conversion, and none with the others. */
  predicate IsConversion(size: char, kind: char) {
    size in ['\0', 'h', 'l', 'q'] && kind in (if size == '\0' then "duxXcps" else "duxX")
  }

  predicate PieceOk(p: Piece) {
    p.Conversion? ==> IsConversion(p.size, p.kind) && ArgOk(Spec(p.size, p.kind), p.arg)
  }

  function ConversionText(size: char, kind: char): (s: string) {
    if size == '\0' then ['%', kind] else ['%', size, kind]
  }

  function PieceText(p: Piece): (s: string) {
    match p
    case Text(text) => Escape(text)
    case Conversion(size, kind, _) => ConversionText(size, kind)
  }

  function PieceArgs(p: Piece): (args: seq<Arg>) {
    if p.Text? then [] else [p.arg]
  }

  function PieceMeaning(p: Piece): (t: string)
    requires PieceOk(p)
  {
    match p
    case Text(text) => text
    case Conversion(size, kind, arg) => Show(Spec(size, kind), arg)
  }

  function Compose(pieces: seq<Piece>): (fmt: string) {
    if pieces == [] then "" else PieceText(pieces[0]) + Compose(pieces[1..])
  }

  function Arguments(pieces: seq<Piece>): (args: seq<Arg>) {
    if pieces == [] then [] else PieceArgs(pieces[0]) + Arguments(pieces[1..])
  }

  predicate PiecesOk(pieces: seq<Piece>) {
    forall k :: 0 <= k < |pieces| ==> PieceOk(pieces[k])
  }

  /** What each piece asks for, one behind the other. */
  function Meaning(pieces: seq<Piece>): (t: string)
    requires PiecesOk(pieces)
  {
    if pieces == [] then "" else PieceMeaning(pieces[0]) + Meaning(pieces[1..])
  }

  lemma ConversionAt(size: char, kind: char, fmt: string, i: nat)
    requires IsConversion(size, kind) && Stands(fmt, i, ConversionText(size, kind))
    ensures SpecAt(fmt, i) == Spec(size, kind)
  {
    var t := ConversionText(size, kind);
    StandsAt(fmt, i, t, 0);
    StandsAt(fmt, i, t, 1);
    if size != '\0' {
      StandsAt(fmt, i, t, 2);
    }
  }

  lemma ArgRendered(spec: Spec, arg: Arg, fmt: string, i: nat, args: seq<Arg>)
    requires i < |fmt| && spec.Spec? && SpecAt(fmt, i) == spec && spec.kind != '%' && ArgOk(spec, arg)
    requires ArgsOk(fmt, i + spec.Length(), args)
    ensures ArgsOk(fmt, i, [arg] + args)
    ensures Render(fmt, i, [arg] + args) == Show(spec, arg) + Render(fmt, i + spec.Length(), args)
  {
    hide SpecAt, Show, ArgOk;
    assert ([arg] + args)[1..] == args;
  }

  /** A piece at index i prints what it means, before what follows. */
  lemma PieceRendered(p: Piece, fmt: string, i: nat, args: seq<Arg>)
    requires PieceOk(p) && Stands(fmt, i, PieceText(p)) && ArgsOk(fmt, i + |PieceText(p)|, args)
    ensures ArgsOk(fmt, i, PieceArgs(p) + args)
    ensures Render(fmt, i, PieceArgs(p) + args) == PieceMeaning(p) + Render(fmt, i + |PieceText(p)|, args)
  {
    hide Show, ArgOk, SpecAt, Escape, ArgsOk, Render, Stands;
    match p
    case Text(text) =>
      assert [] + args == args;
      EscapedPrefix(text, i, fmt, args);
    case Conversion(size, kind, arg) =>
      ConversionAt(size, kind, fmt, i);
      StandsAt(fmt, i, ConversionText(size, kind), 0);
      ArgRendered(Spec(size, kind), arg, fmt, i, args);
  }

  /** A format composed of texts and conversions prints their meaning. */
  lemma {:induction false} ComposeRoundTrip(pieces: seq<Piece>, fmt: string, i: nat)
    requires PiecesOk(pieces) && i + |Compose(pieces)| == |fmt| && Stands(fmt, i, Compose(pieces))
    ensures ArgsOk(fmt, i, Arguments(pieces)) && Render(fmt, i, Arguments(pieces)) == Meaning(pieces)
    decreases |pieces|
  {
    hide Show, ArgOk, SpecAt, PieceText, PieceOk, PieceArgs, PieceMeaning, ArgsOk, Render, Stands;
    if pieces == [] {
      RenderEnd(fmt, i, []);
    } else {
      var t := PieceText(pieces[0]);
      StandsParts(fmt, i, t, Compose(pieces[1..]));
      ComposeRoundTrip(pieces[1..], fmt, i + |t|);
      PieceRendered(pieces[0], fmt, i, Arguments(pieces[1..]));
    }
  }

  /** Where no valid conversion starts, the format prints itself. */
  lemma {:induction false} InvalidIsLiteral(fmt: string, i: nat)
    requires i <= |fmt| && forall k :: i <= k < |fmt| ==> SpecAt(fmt, k) == NoSpec
    ensures ArgsOk(fmt, i, []) && Render(fmt, i, []) == fmt[i..]
    decreases |fmt| - i
  {
    if i < |fmt| {
      InvalidIsLiteral(fmt, i + 1);
      assert fmt[i..] == [fmt[i]] + fmt[i + 1..];
    }
  }

  lemma RenderLiteral(fmt: string, i: nat, args: seq<Arg>)
    requires i < |fmt| && ArgsOk(fmt, i, args) && !SpecAt(fmt, i).Spec?
    ensures ArgsOk(fmt, i + 1, args) && Render(fmt, i, args) == [fmt[i]] + Render(fmt, i + 1, args)
  {
    hide SpecAt, Show, ArgOk;
  }

  lemma RenderPercent(fmt: string, i: nat, args: seq<Arg>)
    requires i < |fmt| && ArgsOk(fmt, i, args) && SpecAt(fmt, i).Spec? && SpecAt(fmt, i).kind == '%'
    ensures var next := i + SpecAt(fmt, i).Length();
      ArgsOk(fmt, next, args) && Render(fmt, i, args) == "%" + Render(fmt, next, args)
  {
    hide SpecAt, Show, ArgOk;
  }

  lemma RenderArg(fmt: string, i: nat, args: seq<Arg>)
    requires i < |fmt| && ArgsOk(fmt, i, args) && SpecAt(fmt, i).Spec? && SpecAt(fmt, i).kind != '%'
    ensures SpecAt(fmt, i).kind in "duxXcps" && args != [] && ArgOk(SpecAt(fmt, i), args[0])
    ensures var next := i + SpecAt(fmt, i).Length();
      && ArgsOk(fmt, next, args[1..])
      && Render(fmt, i, args) == Show(SpecAt(fmt, i), args[0]) + Render(fmt, next, args[1..])
  {
    hide Show;
    assert SpecAt(fmt, i).kind in "duxXcps" by {
      hide ArgOk, ArgsOk;
    }
  }

  /** The text composed in a number buffer, up to its terminator. */
  lemma ComposedText(was: seq<char>, at: nat, text: string)
    requires at + |text| < |was| && '\0' !in text && '\0' !in was[..at]
    ensures Until(Over(was, at, text + ['\0']), '\0') == was[..at] + text
  {
    OverParts(was, at, text);
    var rest := ['\0'] + was[at + |text| + 1..];
    UntilOf(was[..at] + text, rest, '\0');
  }

  /** Everything the kernel has displayed. */
  class Console {
    var out: string

    /** print, as far as the display goes: up to the terminator or `len` characters. */
    method Print(buff: seq<char>, len: nat)
      requires len <= |buff|
      modifies this
      ensures out == old(out) + Until(buff[..len], '\0')
    {
      var i := 0;
      assert buff[..len][0..] == buff[..len];
      while i < len && buff[i] != '\0'
        invariant i <= len && old(out) + Until(buff[..len], '\0') == out + Until(buff[..len][i..], '\0')
      {
        assert buff[..len][i..][1..] == buff[..len][i + 1..];
        ghost var rest := Until(buff[..len][i + 1..], '\0');
        assert (out + [buff[i]]) + rest == out + ([buff[i]] + rest);
        out := out + [buff[i]];
        i := i + 1;
      }
    }

    method PrintInt(i: int)
      requires INT64_MIN <= i < -INT64_MIN && |ItoaText(i, 10, false)| < FORMAT_BUFF
      modifies this
      ensures out == old(out) + ItoaText(i, 10, false)
    {
      hide ItoaText, Until;
      var buffer := new char[20];
      ComposedText(buffer[..], 0, ItoaText(i, 10, false));
      Itoa(i, buffer, 0, 10, false);
      PrintBuffer(buffer);
    }

    method PrintUint(u: nat)
      requires |Numeral(u, 10, false)| < FORMAT_BUFF
      modifies this
      ensures out == old(out) + Numeral(u, 10, false)
    {
      hide Numeral, Until;
      var buffer := new char[20];
      ComposedText(buffer[..], 0, Numeral(u, 10, false));
      Uitoa(u, buffer, 0, 10, false);
      PrintBuffer(buffer);
    }

    method PrintHex(h: nat, caps: bool)
      requires h < 0x1_0000_0000_0000_0000
      modifies this
      ensures out == old(out) + Numeral(h, 16, caps)
    {
      hide Numeral, Until;
      var buffer := new char[20];
      HexFits(h, caps);
      ComposedText(buffer[..], 0, Numeral(h, 16, caps));
      Uitoa(h, buffer, 0, 16, caps);
      PrintBuffer(buffer);
    }

    method PrintPointer(p: nat)
      requires p < 0x1_0000_0000_0000_0000
      modifies this
      ensures out == old(out) + ("0x" + Numeral(p, 16, false))
    {
      hide Numeral, Until;
      var buffer := new char[20];
      buffer[0], buffer[1] := '0', 'x';
      HexFits(p, false);
      assert buffer[..][..2] == "0x";
      ComposedText(buffer[..], 2, Numeral(p, 16, false));
      Uitoa(p, buffer, 2, 16, false);
      PrintBuffer(buffer);
    }

    method PrintBuffer(buffer: array<char>)
      requires buffer.Length == FORMAT_BUFF
      modifies this
      ensures out == old(out) + Until(buffer[..], '\0')
    {
      Print(buffer[..], FORMAT_BUFF);
      assert buffer[..][..FORMAT_BUFF] == buffer[..];
    }

    /** The switch of print_backend over a conversion that takes an argument. */
    method PrintArg(spec: Spec, arg: Arg)
      requires spec.Spec? && spec.kind in "duxXcps" && ArgOk(spec, arg)
      modifies this
      ensures out == old(out) + Show(spec, arg)
    {
      hide Numeral, ItoaText;
      match spec.kind {
        case 'd' => PrintInt(SignedBits(arg.w, Modulus(spec.size)));
        case 'u' => PrintUint(arg.w % Modulus(spec.size));
        case 'x' => PrintHex(arg.w % Modulus(spec.size), false);
        case 'X' => PrintHex(arg.w % Modulus(spec.size), true);
        case 'p' => PrintPointer(arg.w % 0x1_0000_0000_0000_0000);
        case 's' =>
          WholeText(arg.s);
          Print(arg.s, |arg.s|);
        case _ => Print([(arg.w % 256) as char], 1);
      }
    }

    /** print_backend: a scan with two indices, where `start` is the first character
        not yet printed. */
    method PrintBackend(fmt: string, args: seq<Arg>) returns (r: int)
      requires '\0' !in fmt && ArgsOk(fmt, 0, args)
      modifies this
      ensures out == old(out) + Render(fmt, 0, args) && r == 1
    {
      hide ArgsOk, Render, SpecAt, Show, Until, ArgOk;
      var start, end: int, used, more := 0, 0, 0, true;
      ghost var whole := old(out) + Render(fmt, 0, args);
      while more
        invariant 0 <= start <= end <= |fmt| + 1 && 0 <= used <= |args|
        invariant more ==> end <= |fmt| && ArgsOk(fmt, end, args[used..])
        invariant more ==> whole == out + fmt[start..end] + Render(fmt, end, args[used..])
        invariant !more ==> out == whole
        decreases |fmt| + 1 - end
      {
        var endFlag := CharAt(fmt, end) == '\0';
        var formatFlag, info := CheckFormatSpec(fmt, end);
        if endFlag || formatFlag {
          PrintStrn(fmt, start, end);
        }
        if formatFlag {
          if info.formatSpecifier == '%' {
            RenderPercent(fmt, end, args[used..]);
            PercentText();
            Print("%", 1);
          } else {
            RenderArg(fmt, end, args[used..]);
            assert args[used..][1..] == args[used + 1..];
            PrintArg(Spec(info.lengthSpecifier, info.formatSpecifier), args[used]);
            used := used + 1;
          }
          end := end + info.length;
          start, end := end, end - 1;
        } else if end < |fmt| {
          RenderLiteral(fmt, end, args[used..]);
          assert fmt[start..end + 1] == fmt[start..end] + [fmt[end]];
        } else {
          RenderEnd(fmt, end, args[used..]);
        }
        more := CharAt(fmt, end) != '\0';
        end := end + 1;
      }
      r := 1;
    }

    method PrintStrn(fmt: string, start: nat, end: nat)
      requires '\0' !in fmt && start <= end <= |fmt|
      modifies this
      ensures out == old(out) + fmt[start..end]
    {
      WholeText(fmt[start..end]);
      Print(fmt[start..end], end - start);
    }
  }

  lemma PercentText()
    ensures Until("%"[..1], '\0') == "%"
  {
    assert "%"[..1] == "%";
    WholeText("%");
  }

  lemma RenderEnd(fmt: string, i: nat, args: seq<Arg>)
    requires i >= |fmt|
    ensures ArgsOk(fmt, i, args) && Render(fmt, i, args) == ""
  {
  }

  lemma WholeText(s: string)
    requires '\0' !in s
    ensures Until(s[..|s|], '\0') == s
  {
    assert s[..|s|] == s;
    var t := Until(s, '\0');
    if |t| < |s| {
      NoEarlyEnd(s);
    }
  }

  lemma {:induction false} NoEarlyEnd(s: string)
    requires '\0' !in s
    ensures Until(s, '\0') == s
  {
    if s != "" {
      NoEarlyEnd(s[1..]);
      assert s == [s[0]] + s[1..];
    }
  }
}
