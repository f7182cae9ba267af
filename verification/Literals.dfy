/** lib/string.c: all the ways to write a number that strtol reads. */
module Literals {
  import opened Word32
  import opened Numbers

  /** Ten digits, and then letters, small or capital. */
  lemma DigitOfIs(d: nat)
    ensures d < 10 ==> DigitOf('0' + d as char) == d
    ensures d < 26 ==> DigitOf('a' + d as char) == DigitOf('A' + d as char) == 10 + d
  {
  }

  /** printnum writes the ten digits and then small letters. */
  lemma SmallLetters(d: nat)
    requires d < 16
    ensures DIGITS[d] == if d < 10 then '0' + d as char else 'a' + (d - 10) as char
  {
  }

  /** `base` is what strtol is given, and `actual` the base in which it then reads behind `prefix`. */
  predicate Announces(prefix: string, base: int, actual: int) {
    || (prefix == "" && 2 <= base <= 36 && actual == base)
    || (prefix == "0x" && (base == 16 || base == 0) && actual == 16)
    || (prefix == "0" && base == 0 && actual == 8)
    || (prefix == "" && base == 0 && actual == 10)
  }

  /** What follows the sign is not taken for another prefix. */
  predicate Unambiguous(prefix: string, base: int, digits: string, rest: string) {
    && digits != []
    && (prefix == "" && base == 0 ==> digits[0] != '0')
    && (prefix == "" && base == 16 ==> !(digits == "0" && CharAt(rest, 0) == 'x'))
  }

  lemma {:induction false} BlanksOnly(s: string, i: nat, j: nat)
    requires i <= j <= |s| && (forall k :: i <= k < j ==> s[k] == ' ' || s[k] == '\t')
    requires CharAt(s, j) != ' ' && CharAt(s, j) != '\t'
    ensures AfterBlanks(s, i) == j
    decreases j - i
  {
    if i < j {
      BlanksOnly(s, i + 1, j);
    }
  }

  lemma {:induction false} DigitsOnly(s: string, i: nat, j: nat, base: int)
    requires i <= j <= |s| && (forall k :: i <= k < j ==> IsDigit(s[k], base)) && !IsDigit(CharAt(s, j), base)
    ensures AfterDigits(s, i, base) == j
    decreases j - i
  {
    if i < j {
      DigitsOnly(s, i + 1, j, base);
    }
  }

  lemma NotSpecial(c: char, base: int)
    requires IsDigit(c, base)
    ensures c != ' ' && c != '\t' && c != '+' && c != '-' && c != '\0'
    ensures base <= 16 ==> c != 'x'
  {
  }

  /** Blanks, a sign, a prefix and digits are read as the number that they write, up to the first
      character that is not a digit of the base. */
  lemma ReadsLiteral(blanks: string, sign: string, prefix: string, digits: string, rest: string, base: int, actual: int)
    requires (forall k :: 0 <= k < |blanks| ==> blanks[k] == ' ' || blanks[k] == '\t') && sign in {"", "+", "-"}
    requires Announces(prefix, base, actual) && Unambiguous(prefix, base, digits, rest)
    requires (forall k :: 0 <= k < |digits| ==> IsDigit(digits[k], actual)) && !IsDigit(CharAt(rest, 0), actual)
    ensures var text := blanks + sign + prefix + digits; var n := Int32(Number(digits, actual));
            Parse(text + rest, base) == (if sign == "-" then Int32(-n) else n, |text|)
  {
    hide IsDigit, Number, Int32, DigitOf, AfterBlanks, AfterDigits, Prefix, Announces;
    var tail := prefix + digits + rest;
    var s, i := blanks + sign + tail, |blanks| + |sign|;
    assert blanks + sign + prefix + digits + rest == s;
    FirstOfTail(prefix, digits, rest, base, actual);
    AfterSign(blanks, sign, tail);
    assert s[i..] == tail;
    PrefixIs(s, i, prefix, digits, rest, base, actual);
    DigitsThere(s, i + |prefix|, digits, rest, actual);
  }

  lemma DigitsThere(s: string, start: nat, digits: string, rest: string, base: int)
    requires start <= |s| && s[start..] == digits + rest
    requires (forall k :: 0 <= k < |digits| ==> IsDigit(digits[k], base)) && !IsDigit(CharAt(rest, 0), base)
    ensures var end := AfterDigits(s, start, base); end == start + |digits| && s[start..end] == digits
  {
    hide IsDigit, AfterDigits;
    var end := start + |digits|;
    forall k | start <= k < end ensures IsDigit(s[k], base) {
      assert s[k] == s[start..][k - start] == digits[k - start];
    }
    assert CharAt(s, end) == CharAt(s[start..], |digits|) == CharAt(rest, 0);
    DigitsOnly(s, start, end, base);
    assert s[start..end] == s[start..][..|digits|];
  }

  /** Behind the sign comes neither a blank nor another sign. */
  lemma FirstOfTail(prefix: string, digits: string, rest: string, base: int, actual: int)
    requires Announces(prefix, base, actual) && digits != []
    requires forall k :: 0 <= k < |digits| ==> IsDigit(digits[k], actual)
    ensures var t := prefix + digits + rest; t != [] && t[0] != ' ' && t[0] != '\t' && t[0] != '+' && t[0] != '-'
    ensures actual <= 16 ==> digits[0] != 'x' && (|digits| > 1 ==> digits[1] != 'x')
  {
    hide IsDigit, DigitOf;
    NotSpecial(digits[0], actual);
    if |digits| > 1 { NotSpecial(digits[1], actual); }
  }

  lemma AfterSign(blanks: string, sign: string, tail: string)
    requires (forall k :: 0 <= k < |blanks| ==> blanks[k] == ' ' || blanks[k] == '\t') && sign in {"", "+", "-"}
    requires tail != [] && tail[0] != ' ' && tail[0] != '\t' && tail[0] != '+' && tail[0] != '-'
    ensures var s := blanks + sign + tail;
            && AfterBlanks(s, 0) == |blanks|
            && (CharAt(s, |blanks|) == '-' <==> sign == "-") && (CharAt(s, |blanks|) == '+' <==> sign == "+")
  {
    var s := blanks + sign + tail;
    assert forall k :: 0 <= k < |blanks| ==> s[k] == blanks[k];
    assert s[|blanks|] == if sign == "" then tail[0] else sign[0];
    BlanksOnly(s, 0, |blanks|);
  }

  lemma PrefixIs(s: string, i: nat, prefix: string, digits: string, rest: string, base: int, actual: int)
    requires Announces(prefix, base, actual) && Unambiguous(prefix, base, digits, rest)
    requires i <= |s| && s[i..] == prefix + digits + rest
    requires digits[0] != 'x' || actual > 16
    requires |digits| > 1 ==> digits[1] != 'x' || actual > 16
    ensures Prefix(s, i, base) == (i + |prefix|, actual)
  {
    var t := prefix + digits + rest;
    assert CharAt(s, i) == CharAt(t, 0) && CharAt(s, i + 1) == CharAt(t, 1) by {
      assert forall k :: 0 <= k < |t| ==> s[i + k] == t[k];
    }
  }
}
