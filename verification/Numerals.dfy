/** Numbers as text: positional numerals, `atoi`, and the stack's own `itoa`. */
module Numerals {

  type Base = b: nat | 2 <= b <= 36 witness 2

  const WORD: nat := 0x1_0000_0000

  /** An `int` read as the `unsigned int` with the same bits. */
  function Unsigned(v: int): (r: nat)
    ensures r < WORD
  {
    v % WORD
  }

  /** Removing, reading and appending the last digit. */
  function Quot(u: nat, base: Base): (q: nat)
    ensures u >= base ==> 0 < q < u
    ensures u < base ==> q == 0
    ensures 2 * q <= u
  {
    QuotBounds(u, base, u / base, u % base);
    u / base
  }

  lemma QuotBounds(u: nat, base: Base, q: nat, r: nat)
    requires u == q * base + r && r < base
    ensures u >= base ==> 0 < q < u
    ensures u < base ==> q == 0
    ensures 2 * q <= u
  {
    assert q * base >= q * 2;
    assert q > 0 ==> q * base >= 1 * base;
    assert q == 0 ==> q * base == 0;
  }

  function Rem(u: nat, base: Base): (r: nat)
    ensures r < base
  {
    u % base
  }

  function Push(q: nat, base: Base, d: nat): nat {
    q * base + d
  }

  lemma QuotRem(u: nat, base: Base)
    ensures Push(Quot(u, base), base, Rem(u, base)) == u
  {
  }

  lemma PushBelow(q: nat, base: Base, d: nat, p: nat)
    requires d < base
    ensures Push(q, base, d) < p * base <==> q < p
  {
    if q < p {
      assert (q + 1) * base <= p * base;
    } else {
      assert q * base >= p * base;
    }
  }

  function DigitChar(d: nat): char
    requires d < 36
  {
    if d < 10 then '0' + d as char else 'a' + (d - 10) as char
  }

  /** The digits and then the small letters. */
  lemma DigitsInOrder(d: nat)
    requires d < 36
    ensures DigitChar(d) == "0123456789abcdefghijklmnopqrstuvwxyz"[d] && DigitValue(DigitChar(d)) == d
  {
  }

  predicate IsDecimal(c: char) {
    '0' <= c <= '9'
  }

  function DigitValue(c: char): (r: nat)
    ensures IsDecimal(c) ==> r < 10
  {
    if IsDecimal(c) then (c - '0') as int
    else if 'a' <= c <= 'z' then (c - 'a') as int + 10
    else 0
  }

  /** The numeral of `u`, most significant digit first. */
  function Digits(u: nat, base: Base): (r: seq<char>)
    ensures r != []
  {
    if u < base then [DigitChar(u)] else Digits(Quot(u, base), base) + [DigitChar(Rem(u, base))]
  }

  /** The number a numeral denotes. */
  function Value(s: seq<char>, base: Base): nat {
    if s == [] then 0 else Push(Value(s[..|s| - 1], base), base, DigitValue(s[|s| - 1]))
  }

  function Pow(base: nat, n: nat): nat {
    if n == 0 then 1 else Pow(base, n - 1) * base
  }

  lemma {:induction false} ValueOfDigits(u: nat, base: Base)
    ensures Value(Digits(u, base), base) == u
  {
    hide Quot, Rem;
    if u >= base {
      hide Push;
      ValueOfDigits(Quot(u, base), base);
      QuotRem(u, base);
      var front := Digits(Quot(u, base), base);
      assert Digits(u, base)[..|front|] == front;
    } else {
      assert [DigitChar(u)][..0] == [];
      assert Push(0, base, u) == u;
    }
  }

  lemma {:induction false} NoLeadingZero(u: nat, base: Base)
    ensures u > 0 ==> Digits(u, base)[0] != '0'
  {
    hide Quot, Rem;
    if u >= base {
      NoLeadingZero(Quot(u, base), base);
    }
  }

  lemma {:induction false} DecimalsOnly(u: nat)
    ensures forall i | 0 <= i < |Digits(u, 10)| :: IsDecimal(Digits(u, 10)[i])
  {
    hide Quot, Rem;
    if u >= 10 { DecimalsOnly(Quot(u, 10)); }
  }

  /** A number needs at most `n` digits exactly when it is below `base` to the `n`. */
  lemma {:induction false} DigitCount(u: nat, base: Base, n: nat)
    requires n > 0
    ensures |Digits(u, base)| <= n <==> u < Pow(base, n)
  {
    hide Quot, Rem, Push;
    if u < base {
      PowAtLeast(base, n);
    } else if n == 1 {
      assert Pow(base, 1) == Pow(base, 0) * base == base;
    } else {
      var q := Quot(u, base);
      DigitCount(q, base, n - 1);
      QuotRem(u, base);
      PushBelow(q, base, Rem(u, base), Pow(base, n - 1));
      assert |Digits(u, base)| == |Digits(q, base)| + 1;
    }
  }

  lemma {:induction false} PowAtLeast(base: Base, n: nat)
    requires n > 0
    ensures Pow(base, n) >= base
  {
    if n > 1 {
      PowAtLeast(base, n - 1);
      assert Pow(base, n - 1) * base >= 1 * base;
    } else {
      assert Pow(base, 1) == Pow(base, 0) * base;
    }
  }

  // ----- atoi

  predicate IsSpace(c: char) {
    c == ' ' || '\t' <= c <= '\r'
  }

  function DecimalPrefix(s: seq<char>): (n: nat)
    ensures n <= |s| && (forall i | 0 <= i < n :: IsDecimal(s[i])) && (n < |s| ==> !IsDecimal(s[n]))
  {
    if s == [] || !IsDecimal(s[0]) then 0 else 1 + DecimalPrefix(s[1..])
  }

  /** The C library's `atoi` on the characters before the terminator. */
  function Atoi(s: seq<char>): int {
    if s == [] then 0
    else if IsSpace(s[0]) then Atoi(s[1..])
    else if s[0] == '-' then -(Value(s[1..][..DecimalPrefix(s[1..])], 10) as int)
    else if s[0] == '+' then Value(s[1..][..DecimalPrefix(s[1..])], 10)
    else Value(s[..DecimalPrefix(s)], 10)
  }

  lemma {:induction false} PrefixOfDigits(s: seq<char>, rest: seq<char>)
    requires forall i | 0 <= i < |s| :: IsDecimal(s[i])
    requires rest == [] || !IsDecimal(rest[0])
    ensures DecimalPrefix(s + rest) == |s|
  {
    if s != [] {
      assert (s + rest)[1..] == s[1..] + rest;
      PrefixOfDigits(s[1..], rest);
    }
  }

  /** `atoi` reads a numeral back, whatever follows the digits. */
  lemma AtoiOfDigits(u: nat, rest: seq<char>)
    requires rest == [] || !IsDecimal(rest[0])
    ensures Atoi(Digits(u, 10) + rest) == u
  {
    var d := Digits(u, 10);
    DecimalsOnly(u);
    PrefixOfDigits(d, rest);
    assert IsDecimal((d + rest)[0]);
    assert (d + rest)[..|d|] == d;
    ValueOfDigits(u, 10);
  }

  lemma AtoiStep(c: char, s: seq<char>)
    requires c == '-' || c == '+' || c == ' '
    ensures var n := Value(s[..DecimalPrefix(s)], 10);
            Atoi([c] + s) == if c == '-' then -(n as int) else if c == '+' then n else Atoi(s)
  {
    hide Value, DecimalPrefix;
    assert ([c] + s)[1..] == s;
  }

  /** And with a sign in front, or a space. */
  lemma AtoiOfSigned(u: nat, rest: seq<char>)
    requires rest == [] || !IsDecimal(rest[0])
    ensures var s := Digits(u, 10) + rest;
            Atoi("-" + s) == -(u as int) && Atoi("+" + s) == u && Atoi(" " + s) == u
  {
    hide Digits, Value, DecimalPrefix, Atoi;
    var d, s := Digits(u, 10), Digits(u, 10) + rest;
    AtoiOfDigits(u, rest);
    DecimalsOnly(u);
    PrefixOfDigits(d, rest);
    ValueOfDigits(u, 10);
    assert s[..|d|] == d;
    AtoiStep('-', s);
    AtoiStep('+', s);
    AtoiStep(' ', s);
  }

  // ----- itoa

  function Reverse<T>(s: seq<T>): (r: seq<T>)
    ensures |r| == |s| && forall i | 0 <= i < |s| :: r[i] == s[|s| - 1 - i]
  {
    if s == [] then [] else Reverse(s[1..]) + [s[0]]
  }

  lemma {:induction false} ReverseSnoc<T>(s: seq<T>, x: T)
    ensures Reverse(s + [x]) == [x] + Reverse(s)
  {
    var l, r := Reverse(s + [x]), [x] + Reverse(s);
    assert |l| == |r| && forall i | 0 <= i < |l| :: l[i] == r[i];
  }

  /** One round of the conversion moves the last digit to the front of the text. */
  lemma ConvertDigit(u: nat, base: Base, text: seq<char>)
    ensures Digits(u, base) + text
         == (if Quot(u, base) == 0 then [] else Digits(Quot(u, base), base)) + ([DigitChar(Rem(u, base))] + text)
  {
    hide Quot;
    if u < base { QuotRem(u, base); }
  }

  lemma ReverseNone<T>()
    ensures Reverse<T>([]) == []
  {
  }

  lemma UnsignedQuot(u: nat, base: Base)
    requires u < WORD
    ensures Quot(u, base) < WORD / 2 && Unsigned(Quot(u, base)) == Quot(u, base)
  {
  }

  /** The first loop of `itoa`: fills `inv` with the digits of `v`, last digit
      first, until the number or the buffer is used up. */
  method Invert(v: int, base: Base, inv: array<char>) returns (w: int, i: nat)
    requires -(WORD as int / 2) <= v < WORD / 2 && inv.Length > 0
    modifies inv
    ensures i <= inv.Length
    ensures w == 0 ==> Digits(Unsigned(v), base) == Reverse(inv[..i])
    ensures w != 0 ==> |Digits(Unsigned(v), base)| > inv.Length
  {
    hide Quot, Rem, Reverse, Digits, Unsigned;
    ghost var all := Digits(Unsigned(v), base);
    w, i := v, 0;
    assert inv[..0] == [];
    ReverseNone<char>();
    while true
      invariant 0 <= i < inv.Length && -(WORD as int / 2) <= w < WORD / 2
      invariant (i == 0 ==> w == v) && (i > 0 ==> w > 0)
      invariant all == Digits(Unsigned(w), base) + Reverse(inv[..i])
      decreases inv.Length - i
    {
      ghost var u, text := Unsigned(w), Reverse(inv[..i]);
      var d := Rem(Unsigned(w), base) % 0xff;
      w := Quot(Unsigned(w), base);
      UnsignedQuot(u, base);
      ConvertDigit(u, base, text);
      ReverseSnoc(inv[..i], DigitChar(d));
      inv[i] := if d < 10 then '0' + d as char else 'a' + (d - 10) as char;
      assert inv[..i + 1] == inv[..i] + [DigitChar(d)];
      i := i + 1;
      if !(w != 0 && i < inv.Length) {
        break;
      }
    }
  }

  /** Fills `s` with the numeral of `v`, read as unsigned, and a terminator.  The
      buffer must take what is written: a numeral of exactly `len` digits needs
      one place more than `len`. */
  method Itoa(v: int, base: Base, s: array<char>, len: nat) returns (ok: bool)
    requires -(WORD as int / 2) <= v < WORD / 2 && len > 0
    requires |Digits(Unsigned(v), base)| <= len ==> |Digits(Unsigned(v), base)| < s.Length
    modifies s
    ensures ok <==> |Digits(Unsigned(v), base)| <= len
    ensures ok ==> var d := Digits(Unsigned(v), base);
                   s[..|d|] == d && s[|d|] == '\0' && s[|d| + 1..] == old(s[|d| + 1..])
    ensures !ok ==> s[..] == old(s[..])
  {
    hide Digits, Reverse;
    ghost var all := Digits(Unsigned(v), base);
    var inv := new char[len];
    var w, n := Invert(v, base, inv);
    if w != 0 {
      return false;
    }
    var i := 0;
    while i < n
      invariant i <= n == |all| && n < s.Length
      invariant s[..i] == all[..i] && s[i..] == old(s[i..])
      modifies s
    {
      s[i] := inv[n - 1 - i];
      i := i + 1;
    }
    s[i] := '\0';
    ok := true;
  }

  /** Two calls that succeed in the same base write the same text only for the
      same number. */
  lemma ItoaInjective(v: int, w: int, base: Base)
    requires -(WORD as int / 2) <= v < WORD / 2 && -(WORD as int / 2) <= w < WORD / 2
    requires Digits(Unsigned(v), base) == Digits(Unsigned(w), base)
    ensures v == w
  {
    hide Digits, Value;
    ValueOfDigits(Unsigned(v), base);
    ValueOfDigits(Unsigned(w), base);
  }
}
