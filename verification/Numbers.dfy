/** lib/printfmt.c: printnum, and lib/string.c: strtol, which reads back what printnum prints. */
module Numbers {
  import opened Word32

  const DIGITS: string := "0123456789abcdef"

  // ---- printnum ----

  function Pow(b: nat, e: nat): nat {
    if e == 0 then 1 else b * Pow(b, e - 1)
  }

  function Quot(n: nat, b: nat): (q: nat)
    requires b >= 2
    ensures n >= 1 ==> q < n
  {
    QuotSmaller(n, b);
    n / b
  }

  function Rem(n: nat, b: nat): (r: nat)
    requires b >= 2
    ensures r < b && n == b * Quot(n, b) + r
    ensures n < b ==> r == n
  {
    QuotRem(n, b);
    n % b
  }

  lemma QuotRem(n: nat, b: nat)
    requires b >= 2
    ensures 0 <= n % b < b && n == b * (n / b) + n % b
    ensures n < b ==> n % b == n
  {
    if n < b {
      SmallQuot(n, b);
    }
  }

  lemma SmallQuot(n: nat, b: nat)
    requires n < b
    ensures n / b == 0
  {
  }

  lemma QuotSmaller(n: nat, b: nat)
    requires b >= 2
    ensures 0 <= n / b && (n >= 1 ==> n / b < n)
  {
    if n >= 1 {
      assert n == b * (n / b) + n % b;
      if n / b >= n {
        MulMono(n / b, 2, b);
        assert false;
      }
    }
  }

  /** The digits of `num`, most significant first. */
  function Digits(num: nat, base: nat): (r: string)
    requires 2 <= base <= 16
    ensures |r| >= 1
    decreases num
  {
    if num < base then [DIGITS[num]] else Digits(Quot(num, base), base) + [DIGITS[Rem(num, base)]]
  }

  function Repeat(c: char, n: int): (r: string) {
    if n <= 0 then [] else [c] + Repeat(c, n - 1)
  }

  /** The digits, right-adjusted in a field of `width`. */
  function Printed(num: nat, base: nat, width: int, pad: char): string
    requires 2 <= base <= 16
  {
    Repeat(pad, width - |Digits(num, base)|) + Digits(num, base)
  }

  lemma PrintedTail(num: nat, base: nat, width: int, pad: char)
    requires 2 <= base <= 16 && num >= base
    ensures Printed(num, base, width, pad) == Printed(Quot(num, base), base, width - 1, pad) + [DIGITS[Rem(num, base)]]
  {
    hide Quot, Rem;
    var d, n := Digits(Quot(num, base), base), width - 1 - |Digits(Quot(num, base), base)|;
    assert Repeat(pad, n) + (d + [DIGITS[Rem(num, base)]]) == Repeat(pad, n) + d + [DIGITS[Rem(num, base)]];
  }

  class Console {
    var out: string

    constructor ()
      ensures out == []
    {
      out := [];
    }

    method Putch(c: char)
      modifies this
      ensures out == old(out) + [c]
    {
      out := out + [c];
    }

    method PrintNum(num: nat, base: nat, width: int, pad: char)
      requires 2 <= base <= 16
      modifies this
      ensures out == old(out) + Printed(num, base, width, pad)
      decreases num
    {
      hide Quot, Rem;
      if num >= base {
        PrintNum(Quot(num, base), base, width - 1, pad);
        PrintedTail(num, base, width, pad);
      } else {
        ghost var padding := Repeat(pad, width - 1);
        var w := width - 1;
        while w > 0
          invariant out + Repeat(pad, w) == old(out) + padding
          decreases w
        {
          assert out + Repeat(pad, w) == out + [pad] + Repeat(pad, w - 1);
          Putch(pad);
          w := w - 1;
        }
        assert out + Repeat(pad, w) == out;
        assert Printed(num, base, width, pad) == padding + [DIGITS[num]];
      }
      Putch(DIGITS[Rem(num, base)]);
    }
  }

  lemma {:induction false} RepeatIs(c: char, n: int)
    ensures var r := Repeat(c, n); |r| == (if n < 0 then 0 else n) && forall i :: 0 <= i < |r| ==> r[i] == c
  {
    if n > 0 {
      RepeatIs(c, n - 1);
    }
  }

  /** The number of digits is the least that can hold the number. */
  lemma {:induction false} DigitCount(num: nat, base: nat)
    requires 2 <= base <= 16
    ensures var k := |Digits(num, base)|; num < Pow(base, k) && (k > 1 ==> Pow(base, k - 1) <= num)
    decreases num
  {
    hide Quot, Rem;
    if num >= base {
      var k := |Digits(Quot(num, base), base)|;
      DigitCount(Quot(num, base), base);
      calc {
        num;
        base * (Quot(num, base)) + Rem(num, base);
      <
        base * (Quot(num, base) + 1);
      <= { MulMono(base, Quot(num, base) + 1, Pow(base, k)); }
        base * Pow(base, k);
      }
      if k > 1 {
        MulMono(base, Pow(base, k - 1), Quot(num, base));
      }
    }
  }

  lemma MulMono(b: nat, x: nat, y: nat)
    requires x <= y
    ensures b * x <= b * y
  {
  }

  /** Exactly max(width, number of digits) characters come out. */
  lemma PrintedWidth(num: nat, base: nat, width: int, pad: char)
    requires 2 <= base <= 16
    ensures |Printed(num, base, width, pad)| == if width > |Digits(num, base)| then width else |Digits(num, base)|
  {
    RepeatIs(pad, width - |Digits(num, base)|);
  }

  // ---- strtol ----

  /** The character at `i` of a C string. */
  function CharAt(s: string, i: nat): char {
    if i < |s| then s[i] else '\0'
  }

  /** The value of a digit character; 36 for any other. */
  function DigitOf(c: char): (d: nat) {
    if '0' <= c <= '9' then (c - '0') as nat
    else if 'a' <= c <= 'z' then (c - 'a') as nat + 10
    else if 'A' <= c <= 'Z' then (c - 'A') as nat + 10
    else 36
  }

  predicate IsDigit(c: char, base: int) {
    DigitOf(c) < 36 && DigitOf(c) < base
  }

  /** What the digits say, with no bound. */
  function Number(s: string, base: int): int {
    if s == [] then 0 else Number(s[..|s| - 1], base) * base + DigitOf(s[|s| - 1])
  }

  /** The first index from `i` on whose character is not a blank. */
  function AfterBlanks(s: string, i: nat): (r: nat)
    requires i <= |s|
    ensures i <= r <= |s| && forall k :: i <= k < r ==> s[k] == ' ' || s[k] == '\t'
    ensures CharAt(s, r) != ' ' && CharAt(s, r) != '\t'
    decreases |s| - i
  {
    if i < |s| && (s[i] == ' ' || s[i] == '\t') then AfterBlanks(s, i + 1) else i
  }

  /** The first index from `i` on whose character is not a digit of the base. */
  function AfterDigits(s: string, i: nat, base: int): (r: nat)
    requires i <= |s|
    ensures i <= r <= |s|
    decreases |s| - i
  {
    if i < |s| && IsDigit(s[i], base) then AfterDigits(s, i + 1, base) else i
  }

  /** Up to there every character is a digit, and the one there is not. */
  lemma {:induction false} DigitsEnd(s: string, i: nat, base: int)
    requires i <= |s|
    ensures var r := AfterDigits(s, i, base);
            (forall k :: i <= k < r ==> IsDigit(s[k], base)) && !IsDigit(CharAt(s, r), base)
    decreases |s| - i
  {
    if i < |s| && IsDigit(s[i], base) {
      DigitsEnd(s, i + 1, base);
    }
  }

  /** Where the digits start and in what base they are, once blanks and sign are behind. */
  function Prefix(s: string, i: nat, base: int): (r: (nat, int))
    requires i <= |s|
    ensures i <= r.0 <= |s|
  {
    if (base == 0 || base == 16) && CharAt(s, i) == '0' && CharAt(s, i + 1) == 'x' then (i + 2, 16)
    else if base == 0 && CharAt(s, i) == '0' then (i + 1, 8)
    else if base == 0 then (i, 10)
    else (i, base)
  }

  /** The value and the end of the longest number at the head of `s`. */
  function Parse(s: string, base: int): (int, nat) {
    var i := AfterBlanks(s, 0);
    var neg := CharAt(s, i) == '-';
    var p := Prefix(s, if neg || CharAt(s, i) == '+' then i + 1 else i, base);
    var end := AfterDigits(s, p.0, p.1);
    var n := Int32(Number(s[p.0..end], p.1));
    (if neg then Int32(-n) else n, end)
  }

  lemma LongStep(x: int, base: int, d: int)
    ensures Int32(Int32(x) * base + d) == Int32(x * base + d)
  {
    var k := (x + 0x8000_0000) / 0x1_0000_0000;
    assert x == Int32(x) + k * 0x1_0000_0000;
    calc {
      x * base + d;
      (Int32(x) + k * 0x1_0000_0000) * base + d;
      { Distribute(Int32(x), k, base); }
      Int32(x) * base + d + (k * base) * 0x1_0000_0000;
    }
    LongPeriod(Int32(x) * base + d, k * base);
  }

  lemma Distribute(a: int, k: int, b: int)
    ensures (a + k * 0x1_0000_0000) * b == a * b + (k * b) * 0x1_0000_0000
  {
  }

  lemma LongPeriod(y: int, k: int)
    ensures Int32(y + k * 0x1_0000_0000) == Int32(y)
  {
  }

  function Append(val: int, base: int, dig: int): int {
    Int32(val * base + dig)
  }

  lemma NumberStep(s: string, start: nat, i: nat, base: int)
    requires start <= i < |s|
    ensures Int32(Number(s[start..i + 1], base)) == Append(Int32(Number(s[start..i], base)), base, DigitOf(s[i]))
  {
    assert s[start..i + 1][..i - start] == s[start..i];
    LongStep(Number(s[start..i], base), base, DigitOf(s[i]));
  }

  lemma DigitsStep(s: string, i: nat, base: int)
    requires i <= |s|
    ensures var dig := DigitOf(CharAt(s, i));
      if dig >= 36 || dig >= base then AfterDigits(s, i, base) == i
      else i < |s| && AfterDigits(s, i, base) == AfterDigits(s, i + 1, base)
  {
  }

  lemma NoDigits(s: string, i: nat, base: int)
    requires i <= |s|
    ensures Int32(Number(s[i..i], base)) == 0
  {
    assert s[i..i] == [];
  }

  /** `val` is reduced to a long at each digit, and comes out as the reduced value of all of them. */
  method Strtol(s: string, base0: int) returns (val: int, end: nat)
    ensures (val, end) == Parse(s, base0)
  {
    hide Number, Int32, DigitOf, Append, AfterDigits;
    var base, neg, i := base0, false, 0;
    while CharAt(s, i) == ' ' || CharAt(s, i) == '\t'
      invariant i <= |s| && AfterBlanks(s, i) == AfterBlanks(s, 0)
      decreases |s| - i
    {
      i := i + 1;
    }
    if CharAt(s, i) == '+' {
      i := i + 1;
    } else if CharAt(s, i) == '-' {
      i := i + 1;
      neg := true;
    }
    ghost var signed := i;
    if (base == 0 || base == 16) && CharAt(s, i) == '0' && CharAt(s, i + 1) == 'x' {
      i := i + 2;
      base := 16;
    } else if base == 0 && CharAt(s, i) == '0' {
      i := i + 1;
      base := 8;
    } else if base == 0 {
      base := 10;
    }
    ghost var start := i;
    assert (start, base) == Prefix(s, signed, base0);
    hide Prefix, AfterBlanks;
    NoDigits(s, start, base);
    val := 0;
    while true
      invariant start <= i <= |s| && val == Int32(Number(s[start..i], base))
      invariant AfterDigits(s, i, base) == AfterDigits(s, start, base)
      decreases |s| - i
    {
      var dig := DigitOf(CharAt(s, i));
      DigitsStep(s, i, base);
      if dig >= 36 || dig >= base {
        break;
      }
      NumberStep(s, start, i, base);
      i := i + 1;
      val := Append(val, base, dig);
    }
    end := i;
    val := if neg then Int32(-val) else val;
  }

  // ---- Round trip ----

  lemma DigitAt(d: nat, base: nat)
    requires d < base <= 16
    ensures DigitOf(DIGITS[d]) == d && IsDigit(DIGITS[d], base) && DIGITS[d] in DIGITS
  {
  }

  lemma {:induction false} DigitsRead(num: nat, base: nat)
    requires 2 <= base <= 16
    ensures Number(Digits(num, base), base) == num
    ensures forall i :: 0 <= i < |Digits(num, base)| ==> IsDigit(Digits(num, base)[i], base)
    ensures forall i :: 0 <= i < |Digits(num, base)| ==> Digits(num, base)[i] in DIGITS
    decreases num
  {
    hide Quot, Rem, DigitOf, IsDigit;
    DigitAt(Rem(num, base), base);
    if num < base {
      assert Digits(num, base)[..0] == [];
    } else {
      var d := Digits(num, base);
      DigitsRead(Quot(num, base), base);
      assert d[..|d| - 1] == Digits(Quot(num, base), base);
    }
  }

  /** Zeros before the digits do not change the number. */
  lemma {:induction false} LeadingZeros(n: int, s: string, base: int)
    ensures Number(Repeat('0', n) + s, base) == Number(s, base)
    decreases |s|, n
  {
    var z := Repeat('0', n);
    RepeatIs('0', n);
    if s == [] {
      assert z + s == z;
      if n > 0 {
        LeadingZeros(n - 1, [], base);
        assert z[..|z| - 1] == Repeat('0', n - 1) + [] by {
          RepeatIs('0', n - 1);
        }
      }
    } else {
      assert (z + s)[..|z + s| - 1] == z + s[..|s| - 1];
      LeadingZeros(n, s[..|s| - 1], base);
    }
  }

  lemma {:induction false} BlanksEnd(s: string, i: nat, j: nat)
    requires i <= j <= |s| && (forall k :: i <= k < j ==> s[k] == ' ') && CharAt(s, j) != ' ' && CharAt(s, j) != '\t'
    ensures AfterBlanks(s, i) == j
    decreases j - i
  {
    if i < j {
      BlanksEnd(s, i + 1, j);
    }
  }

  lemma DigitChars(s: string, i: nat)
    requires i < |s| && s[i] in DIGITS
    ensures s[i] != ' ' && s[i] != '\t' && s[i] != '+' && s[i] != '-' && s[i] != 'x'
  {
  }

  /** A string of blanks and then digits only is read to its end. */
  lemma ReadsAll(s: string, start: nat, base: nat)
    requires 2 <= base <= 16 && start < |s| && forall k :: 0 <= k < start ==> s[k] == ' '
    requires forall k :: start <= k < |s| ==> s[k] in DIGITS && IsDigit(s[k], base)
    ensures Parse(s, base) == (Int32(Number(s[start..], base)), |s|)
  {
    hide IsDigit, Number, Int32, DigitOf;
    DigitChars(s, start);
    BlanksEnd(s, 0, start);
    if start + 1 < |s| {
      DigitChars(s, start + 1);
    }
    assert Prefix(s, start, base) == (start, base as int);
    DigitsEnd(s, start, base);
    assert AfterDigits(s, start, base) == |s|;
    assert s[start..|s|] == s[start..];
  }

  /** strtol reads back what printnum printed, all of it. */
  lemma RoundTrip(num: nat, base: nat, width: int, pad: char)
    requires num < 0x8000_0000 && 2 <= base <= 16 && (pad == ' ' || pad == '0')
    ensures Parse(Printed(num, base, width, pad), base) == (num as int, |Printed(num, base, width, pad)|)
  {
    hide Number, Parse, Digits, Repeat, DigitOf;
    var d := Digits(num, base);
    var n := width - |d|;
    var p := Repeat(pad, n);
    var s := Printed(num, base, width, pad);
    RepeatIs(pad, n);
    DigitsRead(num, base);
    ZeroIsDigit(base);
    if pad == ' ' {
      assert s[|p|..] == d;
      ReadsAll(s, |p|, base);
    } else {
      LeadingZeros(n, d, base);
      assert s[0..] == s;
      ReadsAll(s, 0, base);
    }
  }

  lemma ZeroIsDigit(base: nat)
    requires base >= 2
    ensures IsDigit('0', base) && '0' in DIGITS
  {
    assert DIGITS[0] == '0';
  }
}
