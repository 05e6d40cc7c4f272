/** Decimal text: Go's strconv.Itoa, ParseUint and ParseInt in base 10, on strings whose characters
    are single bytes. */
module Decimals {

  predicate IsDigit(c: char) {
    '0' <= c <= '9'
  }

  function DigitValue(c: char): (d: nat)
    requires IsDigit(c)
    ensures d < 10
  {
    c as int - '0' as int
  }

  function DigitChar(d: nat): (c: char)
    requires d < 10
    ensures IsDigit(c) && DigitValue(c) == d
  {
    ('0' as int + d) as char
  }

  /** strconv.Itoa on a non-negative number. */
  function ItoaNat(n: nat): (s: string)
    ensures s != [] && forall i :: 0 <= i < |s| ==> IsDigit(s[i])
  {
    if n < 10 then [DigitChar(n)] else ItoaNat(n / 10) + [DigitChar(n % 10)]
  }

  function Itoa(n: int): (s: string)
    ensures s != []
    ensures forall i :: 0 <= i < |s| ==> IsDigit(s[i]) || (i == 0 && s[0] == '-' && n < 0)
    ensures n < 0 ==> s[0] == '-' && |s| > 1
  {
    if n < 0 then ['-'] + ItoaNat(-n) else ItoaNat(n)
  }

  datatype NumberError = NoError | RangeError | SyntaxError

  /** A parsed number: with a range error the value is the nearest representable one, with a
      syntax error it is zero. */
  datatype Number = Number(value: int, error: NumberError) {
    predicate Ok() {
      error == NoError
    }
  }

  function Pow2(bits: nat): (p: nat)
    ensures p > 0
  {
    if bits == 0 then 1 else 2 * Pow2(bits - 1)
  }

  /** The loop of strconv.ParseUint: left to right, stopping at the first bad character or at the
      first overflow. */
  function UintLoop(s: string, acc: nat, max: nat): Number {
    if s == [] then Number(acc, NoError)
    else if !IsDigit(s[0]) then Number(0, SyntaxError)
    else if acc * 10 + DigitValue(s[0]) > max then Number(max, RangeError)
    else UintLoop(s[1..], acc * 10 + DigitValue(s[0]), max)
  }

  function ParseUint(s: string, bits: nat): Number {
    if s == [] then Number(0, SyntaxError) else UintLoop(s, 0, Pow2(bits) - 1)
  }

  /** strconv.ParseInt(s, 10, 64), which is also what Atoi computes on a 64-bit machine. The
      magnitude is parsed first; its range error survives as a saturated value, its syntax error
      does not. */
  function ParseInt(s: string): Number {
    if s == [] then Number(0, SyntaxError) else
      var neg := s[0] == '-';
      var un := ParseUint(if neg || s[0] == '+' then s[1..] else s, 64);
      var cutoff := Pow2(63);
      if un.error == SyntaxError then un
      else if !neg && un.value >= cutoff then Number(cutoff - 1, RangeError)
      else if neg && un.value > cutoff then Number(0 - cutoff, RangeError)
      else Number(if neg then -un.value else un.value, NoError)
  }

  lemma {:induction false} UintLoopConcat(a: string, b: string, acc: nat, max: nat)
    requires UintLoop(a, acc, max).Ok()
    ensures UintLoop(a, acc, max).value >= 0
    ensures UintLoop(a + b, acc, max) == UintLoop(b, UintLoop(a, acc, max).value, max)
    decreases |a|
  {
    if a == [] {
      assert a + b == b;
    } else {
      assert (a + b)[1..] == a[1..] + b;
      UintLoopConcat(a[1..], b, acc * 10 + DigitValue(a[0]), max);
    }
  }

  lemma {:induction false} UintLoopItoa(n: nat, max: nat)
    requires n <= max
    ensures UintLoop(ItoaNat(n), 0, max) == Number(n, NoError)
  {
    if n < 10 {
      assert ItoaNat(n)[1..] == [];
    } else {
      UintLoopItoa(n / 10, max);
      UintLoopConcat(ItoaNat(n / 10), [DigitChar(n % 10)], 0, max);
      assert [DigitChar(n % 10)][1..] == [];
      assert n / 10 * 10 + n % 10 == n;
    }
  }

  /** Printing and parsing a number that fits gives it back. */
  lemma ParseUintItoa(n: nat, bits: nat)
    requires n < Pow2(bits)
    ensures ParseUint(Itoa(n), bits) == Number(n, NoError)
  {
    UintLoopItoa(n, Pow2(bits) - 1);
  }

  lemma Pow2Next(bits: nat)
    ensures Pow2(bits + 1) == 2 * Pow2(bits)
  {
  }

  lemma ParseIntItoa(n: int)
    requires 0 - Pow2(63) <= n < Pow2(63)
    ensures ParseInt(Itoa(n)) == Number(n, NoError)
  {
    hide UintLoop, ItoaNat, Pow2;
    Pow2Next(63);
    var m := if n < 0 then -n else n;
    UintLoopItoa(m, Pow2(64) - 1);
    if n < 0 {
      assert Itoa(n)[1..] == ItoaNat(m);
    }
  }

  /** No two numbers print alike. */
  lemma ItoaInjective(m: nat, n: nat)
    requires Itoa(m) == Itoa(n)
    ensures m == n
  {
    var max := if m < n then n else m;
    UintLoopItoa(m, max);
    UintLoopItoa(n, max);
  }

  // ---- What parsing does with any text ----

  predicate AllDigits(s: string) {
    forall i :: 0 <= i < |s| ==> IsDigit(s[i])
  }

  /** The number written by some digits after a number already read: place values from the right. */
  function ValueFrom(acc: nat, s: string): (v: nat)
    requires AllDigits(s)
    ensures v >= acc
  {
    if s == [] then acc else 10 * ValueFrom(acc, s[..|s| - 1]) + DigitValue(s[|s| - 1])
  }

  lemma {:induction false} ValueCons(acc: nat, s: string)
    requires s != [] && AllDigits(s)
    ensures ValueFrom(acc, s) == ValueFrom(acc * 10 + DigitValue(s[0]), s[1..])
    decreases |s|
  {
    var n := |s| - 1;
    if n == 0 {
      assert s[..0] == [] && s[1..] == [];
    } else {
      ValueCons(acc, s[..n]);
      assert s[..n][1..] == s[1..][..n - 1];
    }
  }

  /** Some digits at the front already exceed the maximum. */
  ghost predicate Overflows(s: string, acc: nat, max: nat) {
    exists k :: 0 <= k <= |s| && Exceeds(s, acc, max, k)
  }

  predicate Exceeds(s: string, acc: nat, max: nat, k: nat)
    requires k <= |s|
  {
    AllDigits(s[..k]) && ValueFrom(acc, s[..k]) > max
  }

  lemma ExceedsCons(s: string, acc: nat, max: nat, k: nat)
    requires s != [] && IsDigit(s[0]) && 0 < k <= |s|
    ensures Exceeds(s, acc, max, k) <==> Exceeds(s[1..], acc * 10 + DigitValue(s[0]), max, k - 1)
  {
    assert s[..k] == [s[0]] + s[1..][..k - 1];
    if AllDigits(s[..k]) {
      ValueCons(acc, s[..k]);
      assert s[..k][1..] == s[1..][..k - 1];
    }
  }

  lemma OverflowsCons(s: string, acc: nat, max: nat)
    requires s != [] && IsDigit(s[0]) && acc <= max
    ensures Overflows(s, acc, max) <==> Overflows(s[1..], acc * 10 + DigitValue(s[0]), max)
  {
    if Overflows(s, acc, max) {
      var k :| 0 <= k <= |s| && Exceeds(s, acc, max, k);
      assert k > 0;
      ExceedsCons(s, acc, max, k);
    }
    if Overflows(s[1..], acc * 10 + DigitValue(s[0]), max) {
      var k :| 0 <= k <= |s[1..]| && Exceeds(s[1..], acc * 10 + DigitValue(s[0]), max, k);
      ExceedsCons(s, acc, max, k + 1);
    }
  }

  lemma {:induction false} UintLoopExact(s: string, acc: nat, max: nat)
    requires acc <= max
    ensures var n := UintLoop(s, acc, max);
      && (n.Ok() <==> AllDigits(s) && ValueFrom(acc, s) <= max)
      && (n.Ok() ==> n.value == ValueFrom(acc, s))
      && (n.error == RangeError <==> Overflows(s, acc, max))
      && (n.error == RangeError ==> n.value == max)
      && (n.error == SyntaxError ==> n.value == 0)
    decreases |s|
  {
    if s != [] {
      if !IsDigit(s[0]) {
        NoDigitNoOverflow(s, acc, max);
      } else {
        var next := acc * 10 + DigitValue(s[0]);
        OverflowsCons(s, acc, max);
        assert AllDigits(s) <==> AllDigits(s[1..]) by {
          assert s == [s[0]] + s[1..];
        }
        if AllDigits(s) {
          ValueCons(acc, s);
        }
        if next > max {
          assert Exceeds(s[1..], next, max, 0) by {
            assert s[1..][..0] == [];
          }
        } else {
          UintLoopExact(s[1..], next, max);
        }
      }
    } else {
      assert forall k :: 0 <= k <= |s| ==> !Exceeds(s, acc, max, k);
    }
  }

  lemma NoDigitNoOverflow(s: string, acc: nat, max: nat)
    requires s != [] && !IsDigit(s[0]) && acc <= max
    ensures !Overflows(s, acc, max) && !AllDigits(s)
  {
    forall k | 0 <= k <= |s| ensures !Exceeds(s, acc, max, k) {
      assert k > 0 ==> s[..k][0] == s[0];
    }
  }

  /** ParseUint on any text: it succeeds exactly on digits that fit, with their value; it reports a range
      error, with the largest number, exactly when some digits at the front are too many; anything else
      is a syntax error, with zero. */
  lemma ParseUintExact(s: string, bits: nat)
    ensures var n := ParseUint(s, bits);
      && (n.Ok() <==> s != [] && AllDigits(s) && ValueFrom(0, s) < Pow2(bits))
      && (n.Ok() ==> n.value == ValueFrom(0, s))
      && (n.error == RangeError <==> Overflows(s, 0, Pow2(bits) - 1))
      && (n.error == RangeError ==> n.value == Pow2(bits) - 1)
      && (n.error == SyntaxError ==> n.value == 0)
  {
    UintLoopExact(s, 0, Pow2(bits) - 1);
  }

  function Unsigned(s: string): string {
    if s != [] && (s[0] == '-' || s[0] == '+') then s[1..] else s
  }

  /** ParseInt on any text: it succeeds exactly on an optional sign and digits whose number lies in the
      64-bit range; out of range it saturates by the sign, and on a syntax error it gives zero. */
  lemma ParseIntExact(s: string)
    ensures var n, digits, neg := ParseInt(s), Unsigned(s), s != [] && s[0] == '-';
      && (n.Ok() <==> digits != [] && AllDigits(digits)
                      && ValueFrom(0, digits) <= if neg then 9223372036854775808 else 9223372036854775807)
      && (n.Ok() ==> n.value == (if neg then 0 - ValueFrom(0, digits) else ValueFrom(0, digits)))
      && (n.error == RangeError ==> n.value == if neg then -9223372036854775808 else 9223372036854775807)
      && (n.error == SyntaxError ==> n.value == 0)
  {
    Pow2Values();
    hide Pow2, ParseUint, ValueFrom, AllDigits, Overflows;
    ParseUintExact(Unsigned(s), 64);
  }

  lemma {:induction false} Pow2Add(a: nat, b: nat)
    ensures Pow2(a + b) == Pow2(a) * Pow2(b)
    decreases b
  {
    if b > 0 {
      Pow2Add(a, b - 1);
    }
  }

  lemma Pow2Values()
    ensures Pow2(32) == 4294967296 && Pow2(63) == 9223372036854775808 && Pow2(64) == 18446744073709551616
  {
    assert Pow2(8) == 256;
    Pow2Add(8, 8);
    Pow2Add(16, 16);
    Pow2Add(32, 32);
    Pow2Next(63);
  }

  /** No two numbers print alike, negative ones included. */
  lemma ItoaIntInjective(m: int, n: int)
    requires Itoa(m) == Itoa(n)
    ensures m == n
  {
    assert (Itoa(m)[0] == '-' <==> m < 0) && (Itoa(n)[0] == '-' <==> n < 0);
    if m < 0 {
      assert Itoa(m)[1..] == ItoaNat(-m) && Itoa(n)[1..] == ItoaNat(-n);
      ItoaInjective(-m, -n);
    } else {
      ItoaInjective(m, n);
    }
  }

  /** Printing is decimal: the ten digits, place values, and the sign. */
  lemma ItoaIsDecimal(n: nat, d: nat)
    requires n > 0 && d < 10
    ensures Itoa(d) == ["0123456789"[d]]
    ensures Itoa(10 * n + d) == Itoa(n) + Itoa(d)
    ensures Itoa(0 - n) == "-" + Itoa(n)
  {
    assert (10 * n + d) / 10 == n && (10 * n + d) % 10 == d;
  }
}
