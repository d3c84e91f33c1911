/** Numbers as text (itoa and uitoa of lib/printk.c). */
module Numerals {
  import opened CString

  const INT64_MIN: int := -0x8000_0000_0000_0000

  function Digit(d: nat, caps: bool): (c: char)
    requires d < 36
    ensures c != '\0' && c != '-' && (c == '0' <==> d == 0)
  {
    if d < 10 then ('0' as int + d) as char else ((if caps then 'A' else 'a') as int + (d - 10)) as char
  }

  function DigitValue(c: char): (d: nat)
    ensures d < 36
  {
    if '0' <= c <= '9' then c as int - '0' as int
    else if 'a' <= c <= 'z' then c as int - 'a' as int + 10
    else if 'A' <= c <= 'Z' then c as int - 'A' as int + 10
    else 0
  }

  /** A decimal digit, or a letter in the case that `caps` asks for. */
  predicate IsDigit(c: char, caps: bool) {
    '0' <= c <= '9' || if caps then 'A' <= c <= 'Z' else 'a' <= c <= 'z'
  }

  lemma DigitReadsBack(d: nat, caps: bool)
    requires d < 36
    ensures IsDigit(Digit(d, caps), caps) && DigitValue(Digit(d, caps)) == d
  {
  }

  lemma DigitPrintsBack(c: char, caps: bool)
    requires IsDigit(c, caps)
    ensures Digit(DigitValue(c), caps) == c && (DigitValue(c) == 0 <==> c == '0')
  {
  }

  /** The numeral of n, most significant digit first. */
  function Numeral(n: nat, base: nat, caps: bool): (s: string)
    requires 2 <= base <= 36
    ensures |s| > 0 && '\0' !in s && '-' !in s
    decreases n
  {
    if n < base then [Digit(n, caps)] else Smaller(n, base); Numeral(n / base, base, caps) + [Digit(n % base, caps)]
  }

  lemma Smaller(n: nat, base: nat)
    requires 2 <= base <= n
    ensures 0 < n / base < n
  {
    var q := n / base;
    assert n == q * base + n % base;
    assert q <= 0 ==> q * base <= 0;
    assert q * base >= q * 2;
  }

  /** The number a digit string stands for. */
  function Read(s: string, base: nat): (n: nat) {
    if s == [] then 0 else Read(s[..|s| - 1], base) * base + DigitValue(s[|s| - 1])
  }

  /** A numeral: digits of the base, all in one case, without a leading zero. */
  ghost predicate Canonical(s: string, base: nat, caps: bool) {
    && s != [] && (s[0] == '0' ==> |s| == 1)
    && forall i :: 0 <= i < |s| ==> IsDigit(s[i], caps) && DigitValue(s[i]) < base
  }

  lemma NumeralStep(n: nat, base: nat, caps: bool)
    requires 2 <= base <= 36 && n >= base
    ensures n / base < n && n == n / base * base + n % base
    ensures Numeral(n, base, caps) == Numeral(n / base, base, caps) + [Digit(n % base, caps)]
  {
    hide Digit;
    Smaller(n, base);
  }

  lemma ReadAppend(s: string, c: char, base: nat)
    ensures Read(s + [c], base) == Read(s, base) * base + DigitValue(c)
  {
    hide DigitValue;
    assert (s + [c])[..|s|] == s;
  }

  lemma CanonicalAppend(s: string, d: nat, base: nat, caps: bool)
    requires Canonical(s, base, caps) && s[0] != '0' && d < base <= 36
    ensures Canonical(s + [Digit(d, caps)], base, caps) && (s + [Digit(d, caps)])[0] == s[0]
  {
    hide DigitValue, Digit, IsDigit;
    DigitReadsBack(d, caps);
  }

  /** What is printed for n is a numeral, and reads back as n. */
  lemma {:induction false} NumeralReadsBack(n: nat, base: nat, caps: bool)
    requires 2 <= base <= 36
    ensures Canonical(Numeral(n, base, caps), base, caps) && Read(Numeral(n, base, caps), base) == n
    ensures Numeral(n, base, caps)[0] == '0' ==> n == 0
    decreases n
  {
    if n < base {
      DigitReadsBack(n, caps);
      ReadAppend("", Digit(n, caps), base);
      assert "" + [Digit(n, caps)] == [Digit(n, caps)];
    } else {
      hide Numeral, Read, Canonical, Digit, DigitValue, IsDigit;
      NumeralStep(n, base, caps);
      NumeralReadsBack(n / base, base, caps);
      DigitReadsBack(n % base, caps);
      ReadAppend(Numeral(n / base, base, caps), Digit(n % base, caps), base);
      QuotientPositive(n, base);
      CanonicalAppend(Numeral(n / base, base, caps), n % base, base, caps);
    }
  }

  lemma QuotientPositive(n: nat, base: nat)
    requires 2 <= base <= n
    ensures n / base > 0
  {
    Smaller(n, base);
  }

  /** Conversely, every numeral is printed for the number it stands for. */
  lemma {:induction false} ReadPrintsBack(s: string, base: nat, caps: bool)
    requires 2 <= base <= 36 && Canonical(s, base, caps)
    ensures Numeral(Read(s, base), base, caps) == s
    ensures s[0] != '0' ==> Read(s, base) > 0
    decreases |s|
  {
    if |s| == 1 {
      OneDigit(s, base, caps);
    } else {
      CanonicalFront(s, base, caps);
      hide Read, Canonical, Digit, DigitValue, IsDigit, Numeral;
      var front, c := s[..|s| - 1], s[|s| - 1];
      assert s == front + [c];
      ReadAppend(front, c, base);
      ReadPrintsBack(front, base, caps);
      DivideBack(Read(front, base), base, DigitValue(c));
      NumeralStep(Read(s, base), base, caps);
    }
  }

  lemma OneDigit(s: string, base: nat, caps: bool)
    requires 2 <= base <= 36 && Canonical(s, base, caps) && |s| == 1
    ensures Numeral(Read(s, base), base, caps) == s && (s[0] != '0' ==> Read(s, base) > 0)
  {
    DigitPrintsBack(s[0], caps);
    hide Digit, DigitValue, IsDigit;
    ReadAppend("", s[0], base);
    assert "" + [s[0]] == s;
  }

  lemma CanonicalFront(s: string, base: nat, caps: bool)
    requires Canonical(s, base, caps) && |s| > 1
    ensures Canonical(s[..|s| - 1], base, caps) && s[..|s| - 1][0] != '0'
    ensures DigitValue(s[|s| - 1]) < base && s[|s| - 1] == Digit(DigitValue(s[|s| - 1]), caps)
  {
    DigitPrintsBack(s[|s| - 1], caps);
    hide DigitValue, Digit, IsDigit;
  }

  lemma DivideBack(high: nat, base: nat, low: nat)
    requires low < base && high > 0
    ensures high * base + low >= base
    ensures (high * base + low) / base == high && (high * base + low) % base == low
  {
    var n := high * base + low;
    assert high * base >= base;
    var q, r := n / base, n % base;
    assert n == q * base + r;
    assert q > high ==> q * base >= (high + 1) * base;
    assert q < high ==> (q + 1) * base <= high * base;
  }

  function Pow(base: nat, k: nat): (p: nat) {
    if k == 0 then 1 else base * Pow(base, k - 1)
  }

  /** The length of a numeral is the place of its highest digit. */
  lemma {:induction false} LengthIff(n: nat, base: nat, caps: bool, k: nat)
    requires 2 <= base <= 36 && k > 0
    ensures |Numeral(n, base, caps)| <= k <==> n < Pow(base, k)
    decreases n
  {
    if n < base {
      PowGrows(base, k);
    } else {
      Smaller(n, base);
      if k > 1 {
        LengthIff(n / base, base, caps, k - 1);
        DivideLess(n, base, Pow(base, k - 1));
      } else {
        assert Pow(base, 1) == base * Pow(base, 0) == base;
      }
    }
  }

  lemma {:induction false} PowGrows(base: nat, k: nat)
    requires base >= 2 && k > 0
    ensures Pow(base, k) >= base
  {
    if k == 1 {
      assert Pow(base, 1) == base * Pow(base, 0) == base;
    } else {
      PowGrows(base, k - 1);
      assert base * Pow(base, k - 1) >= base * 1;
    }
  }

  lemma DivideLess(n: nat, base: nat, m: nat)
    requires base > 0
    ensures n / base < m <==> n < base * m
  {
    var q, r := n / base, n % base;
    assert n == q * base + r;
    if q < m {
      assert (q + 1) * base <= m * base;
    } else {
      assert q * base >= m * base;
    }
  }

  // ----- uitoa and itoa -----

  /** The product of an int64_t with -1, wrapped to 64 bits. */
  function Negated(num: int): (m: int)
    requires INT64_MIN <= num < -INT64_MIN
    ensures INT64_MIN <= m < -INT64_MIN
  {
    if num == INT64_MIN then INT64_MIN else -num
  }

  /** The signed numeral of num; only base 10 has a sign. */
  function Signed(num: int, base: nat, caps: bool): (s: string)
    requires 2 <= base <= 36 && (num >= 0 || base == 10)
  {
    if num < 0 then "-" + Numeral(-num, base, caps) else Numeral(num, base, caps)
  }

  /** The text itoa leaves: without digits when no positive number is left. */
  function ItoaText(num: int, base: nat, caps: bool): (s: string)
    requires 2 <= base <= 36 && INT64_MIN <= num < -INT64_MIN
    ensures '\0' !in s
  {
    var sign, m := if base == 10 && num < 0 then "-" else "", if base == 10 && num < 0 then Negated(num) else num;
    if m == 0 then "0" else sign + if m > 0 then Numeral(m, base, caps) else ""
  }

  /** itoa prints the signed numeral of everything but INT64_MIN. */
  lemma ItoaRightIff(num: int, caps: bool)
    requires INT64_MIN <= num < -INT64_MIN
    ensures ItoaText(num, 10, caps) == Signed(num, 10, caps) <==> num != INT64_MIN
  {
    if num == INT64_MIN {
      assert |Signed(num, 10, caps)| > 1;
    }
  }

  /** The size of print_int's and print_hex's buffers. */
  const FORMAT_BUFF: nat := 20

  lemma Pow19()
    ensures Pow(10, 18) == 1_000_000_000_000_000_000 && Pow(10, 19) == 10_000_000_000_000_000_000
    ensures Pow(16, 16) == 0x1_0000_0000_0000_0000
  {
    assert Pow(10, 6) == 1_000_000;
    assert Pow(10, 12) == 1_000_000_000_000;
    assert Pow(16, 4) == 0x1_0000 && Pow(16, 8) == 0x1_0000_0000 && Pow(16, 12) == 0x1_0000_0000_0000;
  }

  /** An unsigned decimal and its terminator fit the buffer exactly below 10^19. */
  lemma UnsignedFitsIff(num: nat)
    ensures |Numeral(num, 10, false)| < FORMAT_BUFF <==> num < 10_000_000_000_000_000_000
  {
    Pow19();
    LengthIff(num, 10, false, 19);
  }

  /** Every 64-bit hexadecimal fits, even behind a pointer's "0x". */
  lemma HexFits(num: nat, caps: bool)
    requires num < 0x1_0000_0000_0000_0000
    ensures 2 + |Numeral(num, 16, caps)| < FORMAT_BUFF
  {
    Pow19();
    LengthIff(num, 16, caps, 16);
  }

  /** A signed decimal fits exactly above -10^18; INT64_MIN fits too, without its
      digits. */
  lemma SignedFitsIff(num: int)
    requires INT64_MIN <= num < -INT64_MIN
    ensures |ItoaText(num, 10, false)| < FORMAT_BUFF
        <==> num > -1_000_000_000_000_000_000 || num == INT64_MIN
  {
    hide Numeral, Pow;
    Pow19();
    if num > 0 {
      LengthIff(num, 10, false, 19);
    } else if INT64_MIN < num < 0 {
      LengthIff(-num, 10, false, 18);
    }
  }

  /** `was` with `text` written over it from `at` on. */
  function Over(was: seq<char>, at: nat, text: string): (now: seq<char>)
    requires at + |text| <= |was|
    ensures |now| == |was|
  {
    was[..at] + text + was[at + |text|..]
  }

  lemma OverNext(was: seq<char>, at: nat, text: string, c: char)
    requires at + |text| < |was|
    ensures Over(was, at, text)[at + |text| := c] == Over(was, at, text + [c])
  {
  }

  /** The digits of n that a loop dividing by the base has yet to produce. */
  function Rest(n: int, base: nat, caps: bool): (s: string)
    requires 2 <= base <= 36
    ensures '\0' !in s
  {
    if n <= 0 then "" else Numeral(n, base, caps)
  }

  lemma RestStep(n: int, base: nat, caps: bool)
    requires 2 <= base <= 36 && n > 0
    ensures 0 <= n / base < n
    ensures Rest(n, base, caps) == Rest(n / base, base, caps) + [Digit(n % base, caps)]
  {
    hide Digit;
    if n >= base {
      Smaller(n, base);
    } else {
      DivideSmall(n, base);
    }
  }

  lemma DivideSmall(n: nat, base: nat)
    requires n < base
    ensures n / base == 0 && n % base == n
  {
  }

  /** The digit loop: least significant digit first. */
  method WriteDigits(num: int, buffer: array<char>, at: nat, base: nat, caps: bool) returns (i: nat)
    requires 2 <= base <= 36 && at + |Rest(num, base, caps)| < buffer.Length
    modifies buffer
    ensures i == |Rest(num, base, caps)|
    ensures buffer[..] == Over(old(buffer[..]), at, Reverse(Rest(num, base, caps)))
  {
    hide Rest, Digit, Over, Reverse;
    i := 0;
    var n := num;
    ghost var was, done := buffer[..], "";
    ReverseStep(was, at, "", '0');
    while n > 0
      invariant Rest(num, base, caps) == Rest(n, base, caps) + done
      invariant i == |done| && buffer[..] == Over(was, at, Reverse(done))
    {
      RestStep(n, base, caps);
      ghost var c := Digit(n % base, caps);
      ghost var higher := Rest(n / base, base, caps);
      assert (higher + [c]) + done == higher + ([c] + done);
      ReverseStep(was, at, done, c);
      buffer[at + i] := Digit(n % base, caps);
      done := [c] + done;
      i := i + 1;
      n := n / base;
    }
    RestEnds(n, base, caps, done);
  }

  lemma ReverseCons(done: string, c: char)
    ensures Reverse([c] + done) == Reverse(done) + [c] && Reverse("") == ""
  {
    assert ([c] + done)[1..] == done;
  }

  lemma ReverseStep(was: seq<char>, at: nat, done: string, c: char)
    requires at + |done| < |was|
    ensures Over(was, at, Reverse(done))[at + |done| := c] == Over(was, at, Reverse([c] + done))
    ensures Over(was, at, Reverse("")) == was
  {
    ReverseCons(done, c);
    hide Reverse;
    OverNext(was, at, Reverse(done), c);
  }

  lemma RestEnds(n: int, base: nat, caps: bool, done: string)
    requires 2 <= base <= 36 && n <= 0
    ensures Rest(n, base, caps) + done == done
  {
  }

  /** strrev finds the reversed text and leaves the text. */
  lemma TurnAround(was: seq<char>, at: nat, r: string)
    requires at + |r| < |was| && '\0' !in r
    ensures var now := Over(was, at, r + ['\0']);
      && '\0' in now[at..] && Until(now[at..], '\0') == r
      && now[..at] + Reverse(r) + now[at + |r|..] == Over(was, at, Reverse(r) + ['\0'])
  {
    hide Until, Reverse, Over;
    OverParts(was, at, r);
    Turned(was, at, r, Reverse(r));
    EndsIn(r, ['\0'] + was[at + |r| + 1..]);
  }

  lemma Turned(was: seq<char>, at: nat, r: string, t: string)
    requires at + |r| < |was| && |t| == |r|
    ensures var now := Over(was, at, r + ['\0']);
      now[..at] + t + now[at + |r|..] == Over(was, at, t + ['\0'])
  {
    hide Over;
    OverParts(was, at, r);
    OverParts(was, at, t);
  }

  lemma EndsIn(r: string, rest: string)
    requires '\0' !in r && rest != [] && rest[0] == '\0'
    ensures '\0' in r + rest && Until(r + rest, '\0') == r
  {
    hide Until;
    UntilOf(r, rest, '\0');
    assert (r + rest)[|r|] == '\0';
  }

  lemma OverParts(was: seq<char>, at: nat, r: string)
    requires at + |r| < |was|
    ensures var now := Over(was, at, r + ['\0']); var rest := ['\0'] + was[at + |r| + 1..];
      && now[at..] == r + rest && now[..at] == was[..at] && now[at + |r|..] == rest
      && now == was[..at] + r + rest
  {
  }

  /** uitoa into the buffer from `at` on, for a number that fits there: the numeral
      and a terminator, and nothing else changes. */
  method Uitoa(num: nat, buffer: array<char>, at: nat, base: nat, caps: bool)
    requires 2 <= base <= 36 && at + |Numeral(num, base, caps)| < buffer.Length
    modifies buffer
    ensures buffer[..] == Over(old(buffer[..]), at, Numeral(num, base, caps) + ['\0'])
  {
    hide Over, Reverse, Until;
    ghost var was := buffer[..];
    if num == 0 {
      OverTwo(was, at);
      buffer[at] := '0';
      buffer[at + 1] := '\0';
      return;
    }
    var i := WriteDigits(num, buffer, at, base, caps);
    Terminate(buffer, at, i, was, Numeral(num, base, caps));
  }

  lemma OverTwo(was: seq<char>, at: nat)
    requires at + 1 < |was|
    ensures was[at := '0'][at + 1 := '\0'] == Over(was, at, "0" + ['\0'])
  {
  }

  /** The terminator, and strrev. */
  method Terminate(buffer: array<char>, at: nat, i: nat, ghost was: seq<char>, ghost text: string)
    requires '\0' !in text && i == |text| && |was| == buffer.Length && at + i < buffer.Length
    requires buffer[..] == Over(was, at, Reverse(text))
    modifies buffer
    ensures buffer[..] == Over(was, at, text + ['\0'])
  {
    hide Over, Reverse, Until;
    OverNext(was, at, Reverse(text), '\0');
    buffer[at + i] := '\0';
    ReverseTwice(text);
    TurnAround(was, at, Reverse(text));
    assert buffer[at..] == buffer[..][at..];
    assert buffer[..at] == buffer[..][..at] && buffer[at + i..] == buffer[..][at + i..];
    Strrev(buffer, at);
  }

  /** itoa, for a number whose text fits. */
  method Itoa(number: int, buffer: array<char>, at: nat, base: nat, caps: bool)
    requires 2 <= base <= 36 && INT64_MIN <= number < -INT64_MIN
    requires at + |ItoaText(number, base, caps)| < buffer.Length
    modifies buffer
    ensures buffer[..] == Over(old(buffer[..]), at, ItoaText(number, base, caps) + ['\0'])
  {
    hide Over, Reverse, Until;
    ghost var was := buffer[..];
    if number == 0 {
      OverTwo(was, at);
      buffer[at] := '0';
      buffer[at + 1] := '\0';
      return;
    }
    var negative, num := false, number;
    if base == 10 && num < 0 {
      negative := true;
      num := Negated(num);
    }
    var i := WriteDigits(num, buffer, at, base, caps);
    ghost var text := Rest(num, base, caps);
    if negative {
      SignAppends(was, at, text);
      buffer[at + i] := '-';
      i := i + 1;
      text := "-" + text;
    }
    ItoaIs(number, base, caps);
    Terminate(buffer, at, i, was, text);
  }

  lemma ItoaIs(num: int, base: nat, caps: bool)
    requires 2 <= base <= 36 && INT64_MIN <= num < -INT64_MIN && num != 0
    ensures ItoaText(num, base, caps)
         == if base == 10 && num < 0 then "-" + Rest(Negated(num), base, caps) else Rest(num, base, caps)
  {
    hide Numeral;
  }

  lemma SignAppends(was: seq<char>, at: nat, text: string)
    requires at + |text| < |was|
    ensures Over(was, at, Reverse(text))[at + |text| := '-'] == Over(was, at, Reverse("-" + text))
  {
    ReverseStep(was, at, text, '-');
  }
}
