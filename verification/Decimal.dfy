/** Numbers in decimal, as printed and as read back. */
module Decimal {
  import opened Options
  import Text

  predicate IsDigit(c: char) {
    '0' <= c <= '9'
  }

  predicate AllDigits(s: string) {
    forall i :: 0 <= i < |s| ==> IsDigit(s[i])
  }

  function Digit(d: nat): (c: char)
    requires d < 10
    ensures IsDigit(c) && c as int - '0' as int == d
  {
    ('0' as int + d) as char
  }

  function Print(n: nat): (s: string)
    ensures s != "" && AllDigits(s)
  {
    if n < 10 then [Digit(n)] else Print(n / 10) + [Digit(n % 10)]
  }

  /** The value of a run of digits, if it is one. */
  function Value(s: string): (r: Option<nat>)
    ensures r.Some? <==> AllDigits(s)
  {
    if s == "" then Some(0)
    else
      var init, c := s[..|s| - 1], s[|s| - 1];
      var before := Value(init);
      assert AllDigits(s) <==> AllDigits(init) && IsDigit(c) by {
        assert s == init + [c];
      }
      if before.None? || !IsDigit(c) then None else Some(10 * before.value + (c as int - '0' as int))
  }

  /** Reading an unsigned number below a bound: no sign, at least one digit. */
  function ParseUint(s: string, bound: nat): (r: Option<nat>) {
    if s == "" || Value(s).None? || Value(s).value >= bound then None else Value(s)
  }

  lemma {:induction false} ValuePrint(n: nat)
    ensures Value(Print(n)) == Some(n)
  {
    var s := Print(n);
    if n < 10 {
      assert s[..0] == "";
      assert Value(s[..0]) == Some(0);
    } else {
      ValuePrint(n / 10);
      assert s[..|s| - 1] == Print(n / 10);
    }
  }

  /** What is printed reads back. */
  lemma ParsePrint(n: nat, bound: nat)
    requires n < bound
    ensures ParseUint(Print(n), bound) == Some(n)
  {
    ValuePrint(n);
  }

  function Zeros(k: nat): (s: string)
    ensures |s| == k && AllDigits(s)
  {
    seq(k, _ => '0')
  }

  /** At least ten digits, with zeros in front. */
  function PrintPadded(n: nat): (s: string)
    ensures |s| >= 10 && AllDigits(s)
  {
    var d := Print(n);
    if |d| >= 10 then d else Zeros(10 - |d|) + d
  }

  lemma {:induction false} ValueOfZeros(k: nat)
    ensures Value(Zeros(k)) == Some(0)
  {
    if k > 0 {
      ValueOfZeros(k - 1);
      assert Zeros(k)[..k - 1] == Zeros(k - 1);
    }
  }

  lemma {:induction false} ValueAfterZeros(k: nat, s: string)
    requires AllDigits(s)
    ensures Value(Zeros(k) + s) == Value(s)
    decreases |s|
  {
    if s == "" {
      assert Zeros(k) + s == Zeros(k);
      ValueOfZeros(k);
    } else {
      var init := s[..|s| - 1];
      ValueAfterZeros(k, init);
      assert (Zeros(k) + s)[..k + |s| - 1] == Zeros(k) + init;
    }
  }

  lemma ParsePadded(n: nat, bound: nat)
    requires n < bound
    ensures ParseUint(PrintPadded(n), bound) == Some(n)
  {
    ValuePrint(n);
    var d := Print(n);
    if |d| < 10 {
      ValueAfterZeros(10 - |d|, d);
    }
  }

  function Pow10(k: nat): (r: nat) {
    if k == 0 then 1 else 10 * Pow10(k - 1)
  }

  lemma {:induction false} PrintLength(n: nat, k: nat)
    requires k > 0 && n < Pow10(k)
    ensures |Print(n)| <= k
    decreases k
  {
    if n >= 10 {
      assert k > 1;
      PrintLength(n / 10, k - 1);
    }
  }

  /** Ten digits are exactly ten for every 32-bit number. */
  lemma PaddedIsTen(n: nat)
    requires n < 0x1_0000_0000
    ensures |PrintPadded(n)| == 10
  {
    assert Pow10(10) == 10000000000;
    PrintLength(n, 10);
  }

  // ---- numbers of payload objects in dotted form ----

  function DotForm(n: nat): (s: string) {
    Print(n / 0x1000000) + "." + Print(n / 0x10000 % 0x100) + "." + Print(n / 0x100 % 0x100) + "." + Print(n % 0x100)
  }

  /** The place of each part of the dotted form. */
  function Place(i: nat): (r: nat) {
    if i == 0 then 0x1000000 else if i == 1 then 0x10000 else if i == 2 then 0x100 else 1
  }

  function ParseParts(parts: seq<string>, i: nat, rv: nat): (r: Option<nat>)
    requires i <= |parts|
    decreases |parts| - i
  {
    if i == |parts| then Some(rv)
    else
      var cx := ParseUint(parts[i], 256);
      if cx.None? then None else ParseParts(parts, i + 1, rv + cx.value * Place(i))
  }

  function ParseDotForm(s: string): (r: Option<nat>) {
    var parts := Text.Split('.', s);
    if |parts| != 4 then None else ParseParts(parts, 0, 0)
  }

  method FromDotForm(s: string) returns (r: Option<nat>)
    ensures r == ParseDotForm(s)
  {
    var parts := Text.Split('.', s);
    if |parts| != 4 {
      return None;
    }
    var rv: nat := 0;
    for i := 0 to 4
      invariant ParseDotForm(s) == ParseParts(parts, i, rv)
    {
      var cx := ParseUint(parts[i], 256);
      if cx.None? {
        return None;
      }
      rv := rv + cx.value * Place(i);
    }
    return Some(rv);
  }

  lemma SplitFour(a: string, b: string, c: string, d: string)
    requires '.' !in a && '.' !in b && '.' !in c && '.' !in d
    ensures Text.Split('.', a + "." + b + "." + c + "." + d) == [a, b, c, d]
  {
    Text.SplitPart('.', d);
    Text.SplitFirst('.', c, d);
    Text.SplitFirst('.', b, c + "." + d);
    Text.SplitFirst('.', a, b + "." + (c + "." + d));
    Grouped(a + "." + b, c, d);
    Grouped(a, b, c + "." + d);
  }

  lemma Grouped(x: string, y: string, z: string)
    ensures x + "." + y + "." + z == x + "." + (y + "." + z)
  {
  }

  lemma ParseStep(parts: seq<string>, i: nat, rv: nat, v: nat)
    requires i < |parts| && ParseUint(parts[i], 256) == Some(v)
    ensures ParseParts(parts, i, rv) == ParseParts(parts, i + 1, rv + v * Place(i))
  {
  }

  lemma ParseFour(parts: seq<string>, a: nat, b: nat, c: nat, d: nat)
    requires |parts| == 4 && ParseUint(parts[0], 256) == Some(a) && ParseUint(parts[1], 256) == Some(b)
    requires ParseUint(parts[2], 256) == Some(c) && ParseUint(parts[3], 256) == Some(d)
    ensures ParseParts(parts, 0, 0) == Some(a * 0x1000000 + b * 0x10000 + c * 0x100 + d)
  {
    ParseStep(parts, 0, 0, a);
    ParseStep(parts, 1, a * 0x1000000, b);
    ParseStep(parts, 2, a * 0x1000000 + b * 0x10000, c);
    ParseStep(parts, 3, a * 0x1000000 + b * 0x10000 + c * 0x100, d);
  }

  lemma ParseDots(a: nat, b: nat, c: nat, d: nat)
    requires a < 256 && b < 256 && c < 256 && d < 256
    ensures ParseDotForm(Print(a) + "." + Print(b) + "." + Print(c) + "." + Print(d)) ==
            Some(a * 0x1000000 + b * 0x10000 + c * 0x100 + d)
  {
    var p, q, r, s := Print(a), Print(b), Print(c), Print(d);
    ParsePrint(a, 256);
    ParsePrint(b, 256);
    ParsePrint(c, 256);
    ParsePrint(d, 256);
    SplitFour(p, q, r, s);
    ParseFour([p, q, r, s], a, b, c, d);
  }

  /** Every 32-bit number reads back from its dotted form. */
  lemma ParseDotFormPrint(n: nat)
    requires n < 0x1_0000_0000
    ensures ParseDotForm(DotForm(n)) == Some(n)
  {
    var a, b, c, d := n / 0x1000000, n / 0x10000 % 0x100, n / 0x100 % 0x100, n % 0x100;
    ParseDots(a, b, c, d);
    Places(n);
  }

  lemma Places(n: nat)
    ensures n == n / 0x1000000 * 0x1000000 + n / 0x10000 % 0x100 * 0x10000 + n / 0x100 % 0x100 * 0x100 + n % 0x100
  {
    SecondPlace(n);
    ThirdPlace(n);
    var x, y := n / 0x100, n / 0x10000;
    assert x == x / 0x100 * 0x100 + x % 0x100 && y == y / 0x100 * 0x100 + y % 0x100;
  }

  lemma SecondPlace(n: nat)
    ensures n / 0x100 / 0x100 == n / 0x10000
  {
  }

  lemma ThirdPlace(n: nat)
    ensures n / 0x10000 / 0x100 == n / 0x1000000
  {
  }
}
