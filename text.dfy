/**
 * The pieces of .NET string and integer behaviour that the console tool
 * relies on: ordinal substring search (String.Contains), `new string(c, n)`,
 * decimal rendering of an `int`, and the 32-bit wrap-around of `int`
 * arithmetic in an unchecked context.
 */
module Text {

  /** `p` is a prefix of `s`. */
  predicate IsPrefix(p: string, s: string)
  {
    |p| <= |s| && s[..|p|] == p
  }

  /** `sub` occurs somewhere in `s` (the empty string occurs everywhere). */
  ghost predicate Occurs(sub: string, s: string)
  {
    exists i :: 0 <= i <= |s| && IsPrefix(sub, s[i..])
  }

  /** An occurrence in `s` is either at position 0 or an occurrence in `s[1..]`. */
  lemma OccursUnfold(sub: string, s: string)
    ensures Occurs(sub, s) <==> IsPrefix(sub, s) || (s != [] && Occurs(sub, s[1..]))
  {
    if Occurs(sub, s) && !IsPrefix(sub, s) {
      var i :| 0 <= i <= |s| && IsPrefix(sub, s[i..]);
      assert i != 0;
      assert s[1..][i - 1..] == s[i..];
    }
    if s != [] && Occurs(sub, s[1..]) {
      var i :| 0 <= i <= |s[1..]| && IsPrefix(sub, s[1..][i..]);
      assert s[1..][i..] == s[i + 1..];
    }
    if IsPrefix(sub, s) {
      assert s[0..] == s;
    }
  }

  /** Ordinal, case-sensitive `String.Contains`: true exactly when `sub` occurs in `s`. */
  function Contains(s: string, sub: string): (r: bool)
    ensures r <==> Occurs(sub, s)
    decreases |s|
  {
    OccursUnfold(sub, s);
    if IsPrefix(sub, s) then true
    else if s == [] then false
    else Contains(s[1..], sub)
  }

  /** Occurrence is transitive: a string containing `b` contains everything `b` contains. */
  lemma OccursTransitive(a: string, b: string, c: string)
    requires Occurs(a, b) && Occurs(b, c)
    ensures Occurs(a, c)
  {
    var i :| 0 <= i <= |b| && IsPrefix(a, b[i..]);
    var j :| 0 <= j <= |c| && IsPrefix(b, c[j..]);
    assert c[j..][..|b|] == b;
    assert forall k :: 0 <= k < |a| ==> c[j + i + k] == b[i + k] == a[k];
    assert IsPrefix(a, c[j + i..]);
  }

  /** Every string occurs in itself. */
  lemma OccursReflexive(s: string)
    ensures Occurs(s, s)
  {
    assert s[0..] == s;
  }

  /** `new string(c, n)`: `n` copies of `c`. */
  function Repeat(c: char, n: nat): (r: string)
    ensures |r| == n && forall k :: 0 <= k < n ==> r[k] == c
  {
    seq(n, _ => c)
  }

  // ---------------------------------------------------------------------
  // Decimal rendering of integers (Int32.ToString with the invariant culture)

  function DigitChar(d: nat): (ch: char)
    requires d < 10
    ensures '0' <= ch <= '9'
  {
    "0123456789"[d]
  }

  function DigitValue(ch: char): nat
  {
    if '0' <= ch <= '9' then (ch - '0') as nat else 0
  }

  predicate IsDigits(s: string)
  {
    forall k :: 0 <= k < |s| ==> '0' <= s[k] <= '9'
  }

  /** Canonical decimal digits of a natural number: no leading zero except for 0 itself. */
  function NatToString(n: nat): (r: string)
    ensures |r| >= 1 && IsDigits(r)
    ensures r[0] == '0' <==> n == 0
  {
    if n < 10 then [DigitChar(n)]
    else NatToString(n / 10) + [DigitChar(n % 10)]
  }

  /** Decimal rendering of an integer: a minus sign exactly when it is
      negative, followed by decimal digits. */
  function IntToString(n: int): (r: string)
    ensures |r| >= 1 && (r[0] == '-' <==> n < 0)
    ensures IsDigits(if n < 0 then r[1..] else r)
  {
    if n < 0 then "-" + NatToString(-n) else NatToString(n)
  }

  /** Reads an optional minus sign and decimal digits back as a number. */
  function ParseInt(s: string): int
  {
    if s != [] && s[0] == '-' then -(ParseNat(s[1..]) as int) else ParseNat(s)
  }

  /** Reads a string of decimal digits back as a number. */
  function ParseNat(s: string): nat
  {
    if s == [] then 0 else ParseNat(s[..|s| - 1]) * 10 + DigitValue(s[|s| - 1])
  }

  /** Rendering and reading back a natural number is the identity. */
  lemma {:induction false} ParseNatToString(n: nat)
    ensures ParseNat(NatToString(n)) == n
  {
    var r := NatToString(n);
    if n < 10 {
      assert r[..0] == [];
    } else {
      ParseNatToString(n / 10);
      assert r[..|r| - 1] == NatToString(n / 10);
      assert DigitValue(DigitChar(n % 10)) == n % 10;
    }
  }

  /** Rendering and reading back any integer, negative or not, is the identity. */
  lemma ParseIntToString(n: int)
    ensures ParseInt(IntToString(n)) == n
  {
    if n < 0 {
      ParseNatToString(-n);
      assert IntToString(n)[1..] == NatToString(-n);
    } else {
      ParseNatToString(n);
    }
  }

  // ---------------------------------------------------------------------
  // 32-bit signed integers in an unchecked context

  const Int32Min: int := -0x8000_0000
  const Int32Max: int := 0x7fff_ffff
  const TwoTo32: int := 0x1_0000_0000

  /** The value an `int` holds after an unchecked computation whose exact
      result is `x`: `x` brought into range by whole turns of 2^32. */
  function Wrap32(x: int): (r: int)
    ensures Int32Min <= r <= Int32Max
    ensures Int32Min <= x <= Int32Max ==> r == x
    decreases if x > Int32Max then x - Int32Max else if x < Int32Min then Int32Min - x else 0
  {
    if x > Int32Max then Wrap32(x - TwoTo32)
    else if x < Int32Min then Wrap32(x + TwoTo32)
    else x
  }

  /** Wrapping moves a value by a whole number of turns. */
  lemma {:induction false} WrapTurns(x: int) returns (k: int)
    ensures Wrap32(x) == x + k * TwoTo32
    decreases if x > Int32Max then x - Int32Max else if x < Int32Min then Int32Min - x else 0
  {
    if x > Int32Max {
      k := WrapTurns(x - TwoTo32);
      k := k - 1;
    } else if x < Int32Min {
      k := WrapTurns(x + TwoTo32);
      k := k + 1;
    } else {
      k := 0;
    }
  }

  /** Hence the wrapped value is the one value of the 32-bit range that is
      congruent to the exact one modulo 2^32: two's-complement truncation. */
  lemma WrapCongruent(x: int)
    ensures (x - Wrap32(x)) % TwoTo32 == 0
  {
    var k := WrapTurns(x);
    assert x - Wrap32(x) == (-k) * TwoTo32;
  }

  /** Adding a whole number of turns does not change the wrapped value. */
  lemma {:induction false} WrapShift(x: int, k: int)
    ensures Wrap32(x + k * TwoTo32) == Wrap32(x)
    decreases if k < 0 then -k else k
  {
    if k > 0 {
      WrapShift(x, k - 1);
      WrapOneTurn(x + (k - 1) * TwoTo32);
    } else if k < 0 {
      WrapShift(x, k + 1);
      WrapOneTurn(x + k * TwoTo32);
    }
  }

  lemma WrapOneTurn(x: int)
    ensures Wrap32(x + TwoTo32) == Wrap32(x)
  {
  }

  /** Adding to a wrapped value wraps the exact sum: an `int` counter that started
      at 0 and was incremented `n` times with `++` holds `Wrap32(n)`. */
  lemma WrapAdd(x: int, n: int)
    ensures Wrap32(Wrap32(x) + n) == Wrap32(x + n)
  {
    var k := WrapTurns(x);
    assert Wrap32(x) + n == (x + n) + k * TwoTo32;
    WrapShift(x + n, k);
  }
}
