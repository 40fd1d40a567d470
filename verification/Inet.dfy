/** Dotted-decimal addresses.  `inet_addr` splits at dots, shifts and ORs;
    `inet_ntoa` prints into a buffer of given size and so may truncate. */
module Inet {
  import opened Numerals
  import Fifo

  type Addr = a: nat | a < WORD

  /** The octet at `shift` bits: (v & (0xff << shift)) >> shift. */
  function Octet(a: Addr, i: nat): (r: nat)
    requires i < 4
    ensures r < 256
  {
    match i
    case 0 => a % 0x100
    case 1 => a / 0x100 % 0x100
    case 2 => a / 0x1_0000 % 0x100
    case 3 => a / 0x100_0000 % 0x100
  }

  /** What "%d.%d.%d.%d" prints for the address. */
  function Text(a: Addr): seq<char> {
    Digits(Octet(a, 3), 10) + "." + Digits(Octet(a, 2), 10) + "."
    + Digits(Octet(a, 1), 10) + "." + Digits(Octet(a, 0), 10)
  }

  /** The string that `inet_ntoa` leaves in a buffer of `len` bytes. */
  function Printed(a: Addr, len: nat): seq<char>
    requires len > 0
  {
    Text(a)[..Fifo.Min(|Text(a)|, len - 1)]
  }

  method InetNtoa(a: Addr, s: array<char>, len: nat)
    requires 0 < len <= s.Length
    modifies s
    ensures var n := if |Text(a)| < len then |Text(a)| else len - 1;
            s[..n] == Text(a)[..n] == Printed(a, len) && s[n] == '\0' && s[n + 1..] == old(s[n + 1..])
  {
    hide Text;
    var t := Printed(a, len);
    forall i | 0 <= i < |t| { s[i] := t[i]; }
    s[|t|] := '\0';
  }

  /** Bitwise OR. */
  function Or(a: nat, b: nat): nat {
    if a == 0 && b == 0 then 0
    else 2 * Or(a / 2, b / 2) + if a % 2 == 1 || b % 2 == 1 then 1 else 0
  }

  /** The number of characters before the first dot. */
  function TokenLength(s: seq<char>): (n: nat)
    ensures n <= |s| && (forall i | 0 <= i < n :: s[i] != '.') && (n < |s| ==> s[n] == '.')
  {
    if s == [] || s[0] == '.' then 0 else 1 + TokenLength(s[1..])
  }

  /** The tokens `strtok` yields for the delimiter '.': it skips empty ones. */
  function Tokens(s: seq<char>): seq<seq<char>>
    decreases |s|
  {
    if s == [] then []
    else if s[0] == '.' then Tokens(s[1..])
    else [s[..TokenLength(s)]] + Tokens(s[TokenLength(s)..])
  }

  /** One round of the loop of `inet_addr`. */
  function ShiftIn(a: Addr, token: seq<char>): Addr {
    Or(a * 0x100 % WORD, Unsigned(Atoi(token))) % WORD
  }

  function Fold(a: Addr, tokens: seq<seq<char>>): Addr
    decreases |tokens|
  {
    if tokens == [] then a else Fold(ShiftIn(a, tokens[0]), tokens[1..])
  }

  /** The address a string denotes. */
  function Parse(s: seq<char>): Addr {
    Fold(0, Tokens(s))
  }

  /** One call of `strtok`: the next token and what follows it. */
  method Strtok(s: seq<char>) returns (found: bool, tk: seq<char>, rest: seq<char>)
    ensures found ==> Tokens(s) == [tk] + Tokens(rest) && |rest| < |s|
    ensures !found ==> Tokens(s) == []
  {
    var i := 0;
    while i < |s| && s[i] == '.'
      invariant i <= |s| && Tokens(s[i..]) == Tokens(s)
    {
      assert s[i..][1..] == s[i + 1..];
      i := i + 1;
    }
    if i == |s| {
      return false, [], [];
    }
    var n := TokenLength(s[i..]);
    return true, s[i..][..n], s[i..][n..];
  }

  method InetAddr(str: seq<char>) returns (iaddr: Addr)
    ensures iaddr == Parse(str)
  {
    iaddr := 0;
    var found, tk, rest := Strtok(str);
    while found
      invariant Fold(iaddr, if found then [tk] + Tokens(rest) else []) == Parse(str)
      decreases if found then |rest| + 1 else 0
    {
      iaddr := ShiftIn(iaddr, tk);
      found, tk, rest := Strtok(rest);
    }
  }

  // ----- the round trip

  lemma {:induction false} OrZero(a: nat)
    ensures Or(a, 0) == a
  {
    if a > 0 { OrZero(a / 2); }
  }

  /** ORing into cleared low bits adds. */
  lemma {:induction false} OrAdds(x: nat, b: nat, k: nat)
    requires b < Pow(2, k)
    ensures Or(x * Pow(2, k), b) == x * Pow(2, k) + b
  {
    if k == 0 {
      OrZero(x);
    } else {
      var p := Pow(2, k - 1);
      assert x * Pow(2, k) == 2 * (x * p);
      OrAdds(x, b / 2, k - 1);
    }
  }

  lemma EightBits()
    ensures Pow(2, 8) == 256
  {
    assert Pow(2, 4) == 16;
  }

  lemma ShiftInOctet(a: Addr, o: nat)
    requires a < 0x100_0000 && o < 256
    ensures ShiftIn(a, Digits(o, 10)) == a * 0x100 + o
  {
    hide Digits, Atoi, Or, Pow;
    AtoiOfDigits(o, []);
    assert Digits(o, 10) + [] == Digits(o, 10);
    EightBits();
    OrAdds(a, o, 8);
  }

  lemma NoDots(u: nat)
    ensures forall i | 0 <= i < |Digits(u, 10)| :: Digits(u, 10)[i] != '.'
  {
    DecimalsOnly(u);
  }

  lemma {:induction false} TokenEnds(s: seq<char>, rest: seq<char>)
    requires forall i | 0 <= i < |s| :: s[i] != '.'
    requires rest == [] || rest[0] == '.'
    ensures TokenLength(s + rest) == |s|
  {
    if s != [] {
      assert (s + rest)[1..] == s[1..] + rest;
      TokenEnds(s[1..], rest);
    }
  }

  /** A numeral in front of a dot is the first token. */
  lemma FirstToken(u: nat, rest: seq<char>)
    ensures Tokens(Digits(u, 10) + "." + rest) == [Digits(u, 10)] + Tokens(rest)
  {
    var d := Digits(u, 10);
    var s := d + "." + rest;
    NoDots(u);
    TokenEnds(d, "." + rest);
    assert s == d + ("." + rest);
    assert s[..|d|] == d && s[|d|..] == "." + rest;
    assert ("." + rest)[1..] == rest;
  }

  lemma LastToken(u: nat)
    ensures Tokens(Digits(u, 10)) == [Digits(u, 10)]
  {
    var d := Digits(u, 10);
    NoDots(u);
    TokenEnds(d, []);
    assert d + [] == d && d[|d|..] == [];
  }

  /** Four numerals joined by dots. */
  function Dotted(o3: nat, o2: nat, o1: nat, o0: nat): seq<char> {
    Digits(o3, 10) + "." + Digits(o2, 10) + "." + Digits(o1, 10) + "." + Digits(o0, 10)
  }

  lemma ParseDotted(o3: nat, o2: nat, o1: nat, o0: nat)
    requires o3 < 256 && o2 < 256 && o1 < 256 && o0 < 256
    ensures Parse(Dotted(o3, o2, o1, o0)) == ((o3 * 256 + o2) * 256 + o1) * 256 + o0
  {
    hide Tokens, Digits, ShiftIn;
    var d3, d2, d1, d0 := Digits(o3, 10), Digits(o2, 10), Digits(o1, 10), Digits(o0, 10);
    assert Dotted(o3, o2, o1, o0) == d3 + "." + (d2 + "." + (d1 + "." + d0));
    FirstToken(o3, d2 + "." + (d1 + "." + d0));
    FirstToken(o2, d1 + "." + d0);
    FirstToken(o1, d0);
    LastToken(o0);
    assert Tokens(Dotted(o3, o2, o1, o0)) == [d3, d2, d1, d0];
    ShiftInOctet(0, o3);
    ShiftInOctet(o3, o2);
    ShiftInOctet(o3 * 256 + o2, o1);
    ShiftInOctet((o3 * 256 + o2) * 256 + o1, o0);
    FoldFour(d3, d2, d1, d0);
  }

  lemma FoldFour(a: seq<char>, b: seq<char>, c: seq<char>, d: seq<char>)
    ensures Fold(0, [a, b, c, d]) == ShiftIn(ShiftIn(ShiftIn(ShiftIn(0, a), b), c), d)
  {
    hide ShiftIn;
    var x := ShiftIn(0, a);
    var y := ShiftIn(x, b);
    assert [a, b, c, d][1..] == [b, c, d] && [b, c, d][1..] == [c, d] && [c, d][1..] == [d];
    var z := ShiftIn(y, c);
    assert Fold(0, [a, b, c, d]) == Fold(x, [b, c, d]) == Fold(y, [c, d]) == Fold(z, [d]);
    assert [d][1..] == [] && Fold(z, [d]) == Fold(ShiftIn(z, d), []);
  }

  lemma OctetsMakeUp(a: Addr)
    ensures ((Octet(a, 3) * 256 + Octet(a, 2)) * 256 + Octet(a, 1)) * 256 + Octet(a, 0) == a
  {
    var q := a / 0x100;
    var r := q / 0x100;
    assert a / 0x1_0000 == r && a / 0x100_0000 == r / 0x100;
    assert r / 0x100 % 0x100 == r / 0x100;
    assert a == q * 0x100 + Octet(a, 0) && q == r * 0x100 + Octet(a, 1) && r == Octet(a, 3) * 0x100 + Octet(a, 2);
  }

  /** `inet_addr(inet_ntoa(a, s, len))` is `a` whenever the text and its terminator fit. */
  lemma RoundTrip(a: Addr, len: nat)
    requires |Text(a)| < len
    ensures Parse(Printed(a, len)) == a
  {
    assert Printed(a, len) == Dotted(Octet(a, 3), Octet(a, 2), Octet(a, 1), Octet(a, 0));
    ParseDotted(Octet(a, 3), Octet(a, 2), Octet(a, 1), Octet(a, 0));
    OctetsMakeUp(a);
  }

  lemma OctetWidth(o: nat)
    requires o < 256
    ensures |Digits(o, 10)| <= 3 && (|Digits(o, 10)| == 3 <==> o >= 100)
  {
    assert Pow(10, 2) == 100 && Pow(10, 3) == 1000;
    DigitCount(o, 10, 3);
    DigitCount(o, 10, 2);
  }

  lemma TextWidth(a: Addr)
    ensures |Text(a)| <= 15
    ensures |Text(a)| == 15 ==> Octet(a, 0) >= 100
  {
    OctetWidth(Octet(a, 3));
    OctetWidth(Octet(a, 2));
    OctetWidth(Octet(a, 1));
    OctetWidth(Octet(a, 0));
  }

  /** A buffer of 16 bytes serves every address. */
  lemma RoundTripInSixteen(a: Addr, len: nat)
    requires len >= 16
    ensures Parse(Printed(a, len)) == a
  {
    TextWidth(a);
    RoundTrip(a, len);
  }

  /** With the 15 bytes that `send_cmd` announces, the address survives exactly
      when its text has at most 14 characters: the cut numeral loses its last digit. */
  lemma RoundTripInFifteen(a: Addr)
    ensures Parse(Printed(a, 15)) == a <==> |Text(a)| <= 14
  {
    TextWidth(a);
    if |Text(a)| <= 14 {
      RoundTrip(a, 15);
    } else {
      var o := Octet(a, 0);
      var cut := Quot(o, 10);
      assert Text(a) == Dotted(Octet(a, 3), Octet(a, 2), Octet(a, 1), cut) + [DigitChar(Rem(o, 10))];
      assert Printed(a, 15) == Dotted(Octet(a, 3), Octet(a, 2), Octet(a, 1), cut);
      ParseDotted(Octet(a, 3), Octet(a, 2), Octet(a, 1), cut);
      OctetsMakeUp(a);
    }
  }

  lemma PrintedText()
    ensures Text(0xC0A8_7B7B) == "192.168.123.123"
  {
    hide Digits;
    var a: Addr := 0xC0A8_7B7B;
    assert Octet(a, 3) == 192 && Octet(a, 2) == 168 && Octet(a, 1) == 123 && Octet(a, 0) == 123;
    PrintedDigits();
  }

  lemma PrintedDigits()
    ensures Digits(192, 10) == "192" && Digits(168, 10) == "168" && Digits(123, 10) == "123" && Digits(12, 10) == "12"
  {
  }

  /** 192.168.123.123 comes back as 192.168.123.12. */
  lemma FifteenIsShort()
    ensures Printed(0xC0A8_7B7B, 16) == "192.168.123.123" && Printed(0xC0A8_7B7B, 15) == "192.168.123.12"
    ensures Parse(Printed(0xC0A8_7B7B, 15)) == 0xC0A8_7B0C
  {
    hide Text, Digits;
    PrintedText();
    PrintedDigits();
    assert "192.168.123.12" == Dotted(192, 168, 123, 12);
    ParseDotted(192, 168, 123, 12);
  }

  // ----- address matching

  const ADDR_LEN: nat := 12  // sizeof(sock_addr_inet_t)

  /** Bitwise AND. */
  function And(a: nat, b: nat): nat {
    if a == 0 || b == 0 then 0
    else 2 * And(a / 2, b / 2) + if a % 2 == 1 && b % 2 == 1 then 1 else 0
  }

  /** `inet_match_addr`: the any-address, or an address in the device's network. */
  predicate MatchAddr(ip: Addr, netmask: Addr, a: Addr, addrLen: nat) {
    addrLen == ADDR_LEN && (a == 0 || And(ip, netmask) == And(a, netmask))
  }

  /** `a` without its `k` low bits. */
  function High(a: nat, k: nat): nat {
    if k == 0 then a else High(a / 2, k - 1)
  }

  /** `a` with `k` zero bits appended. */
  function Shifted(a: nat, k: nat): nat {
    if k == 0 then a else 2 * Shifted(a, k - 1)
  }

  /** `j` one bits. */
  function Ones(j: nat): nat {
    if j == 0 then 0 else 2 * Ones(j - 1) + 1
  }

  lemma {:induction false} AndOnes(a: nat, j: nat)
    requires a < Pow(2, j)
    ensures And(a, Ones(j)) == a
  {
    if j > 0 && a > 0 { AndOnes(a / 2, j - 1); }
  }

  /** ANDing with `j` ones above `k` zeros clears the `k` low bits. */
  lemma {:induction false} AndMask(a: nat, j: nat, k: nat)
    requires a < Pow(2, j + k)
    ensures And(a, Shifted(Ones(j), k)) == Shifted(High(a, k), k)
  {
    if k == 0 {
      AndOnes(a, j);
    } else {
      assert Pow(2, j + k) == Pow(2, j + k - 1) * 2;
      AndMask(a / 2, j, k - 1);
      assert Shifted(Ones(j), k) / 2 == Shifted(Ones(j), k - 1);
    }
  }

  lemma {:induction false} ShiftedInjective(x: nat, y: nat, k: nat)
    requires Shifted(x, k) == Shifted(y, k)
    ensures x == y
  {
    if k > 0 { ShiftedInjective(x, y, k - 1); }
  }

  lemma {:induction false} MaskFits(j: nat, k: nat)
    ensures Shifted(Ones(j), k) < Pow(2, j + k)
  {
    if k > 0 {
      MaskFits(j, k - 1);
    } else if j > 0 {
      MaskFits(j - 1, 0);
    }
  }

  lemma WordBits()
    ensures Pow(2, 32) == WORD
  {
    assert Pow(2, 8) == 256;
    assert Pow(2, 16) == 65536;
    assert Pow(2, 24) == 0x100_0000;
  }

  /** Under a netmask of `32 - k` leading ones an address matches exactly when it
      is the any-address or agrees with the device in all but the `k` low bits. */
  lemma MatchIsSameNetwork(ip: Addr, a: Addr, k: nat)
    requires k <= 32
    ensures Shifted(Ones(32 - k), k) < WORD
    ensures MatchAddr(ip, Shifted(Ones(32 - k), k), a, ADDR_LEN) <==> a == 0 || High(ip, k) == High(a, k)
  {
    hide Pow;
    WordBits();
    MaskFits(32 - k, k);
    AndMask(ip, 32 - k, k);
    AndMask(a, 32 - k, k);
    if Shifted(High(ip, k), k) == Shifted(High(a, k), k) {
      ShiftedInjective(High(ip, k), High(a, k), k);
    }
  }

  predicate Bit(a: nat, i: nat) {
    High(a, i) % 2 == 1
  }

  /** Equal under a mask means equal at the bits that the mask has. */
  lemma {:induction false} AndAgrees(a: nat, b: nat, m: nat, w: nat)
    requires a < Pow(2, w) && b < Pow(2, w) && m < Pow(2, w)
    ensures And(a, m) == And(b, m) <==> forall i | 0 <= i < w && Bit(m, i) :: Bit(a, i) == Bit(b, i)
  {
    if w > 0 {
      AndAgrees(a / 2, b / 2, m / 2, w - 1);
      AndSplits(a, m);
      AndSplits(b, m);
      if forall i | 0 <= i < w - 1 && Bit(m / 2, i) :: Bit(a / 2, i) == Bit(b / 2, i) {
        forall i | 0 < i < w && Bit(m, i) ensures Bit(a, i) == Bit(b, i) {
          assert Bit(m / 2, i - 1);
        }
      } else {
        var i :| 0 <= i < w - 1 && Bit(m / 2, i) && Bit(a / 2, i) != Bit(b / 2, i);
        assert Bit(m, i + 1) && Bit(a, i + 1) != Bit(b, i + 1);
      }
      assert Bit(m, 0) <==> m % 2 == 1;
    }
  }

  lemma AndSplits(a: nat, m: nat)
    ensures And(a, m) == 2 * And(a / 2, m / 2) + if a % 2 == 1 && m % 2 == 1 then 1 else 0
  {
  }

  /** Under any netmask at all an address matches exactly when it is the any-address
      or agrees with the device at every bit of the mask. */
  lemma MatchAgrees(ip: Addr, netmask: Addr, a: Addr)
    ensures MatchAddr(ip, netmask, a, ADDR_LEN) <==>
              a == 0 || forall i | 0 <= i < 32 && Bit(netmask, i) :: Bit(ip, i) == Bit(a, i)
  {
    hide Pow, And, Bit;
    WordBits();
    AndAgrees(ip, a, netmask, 32);
  }
}
