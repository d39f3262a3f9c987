/** Little-endian numbers in any base, and their canonical digits. */
module Digits {

  ghost predicate DigitsOk(v: seq<nat>, base: nat)
  {
    forall i :: 0 <= i < |v| ==> v[i] < base
  }

  /** The value of a little-endian digit sequence. */
  function Value(v: seq<nat>, base: nat): (n: nat)
  {
    if v == [] then 0 else v[0] + base * Value(v[1..], base)
  }

  /** No superfluous zero at the high end. */
  predicate Canonical(v: seq<nat>)
  {
    v != [] ==> v[|v| - 1] != 0
  }

  /** The digits of a number, lowest first, without zeros at the high end. */
  function DigitsOf(n: nat, base: nat): (v: seq<nat>)
    requires base >= 2
    ensures DigitsOk(v, base) && Canonical(v) && Value(v, base) == n
    decreases n
  {
    if n == 0 then [] else
      Shrinks(n, base);
      var rest := DigitsOf(n / base, base);
      LowDigit(n % base, rest, base);
      [n % base] + rest
  }

  lemma {:induction false} LowDigit(d: nat, rest: seq<nat>, base: nat)
    requires d < base && DigitsOk(rest, base) && Canonical(rest)
    ensures DigitsOk([d] + rest, base) && Value([d] + rest, base) == d + base * Value(rest, base)
    ensures d > 0 || Value(rest, base) > 0 ==> Canonical([d] + rest)
  {
    assert ([d] + rest)[1..] == rest;
  }

  lemma Shrinks(n: nat, base: nat)
    requires n > 0 && base >= 2
    ensures n / base < n && n == n % base + base * (n / base)
  {
    assert n == base * (n / base) + n % base;
  }

  lemma {:induction false} DivMod(a: nat, b: nat, base: nat)
    requires a < base
    ensures (a + base * b) % base == a && (a + base * b) / base == b
  {
    var q, r := (a + base * b) / base, (a + base * b) % base;
    assert a + base * b == base * q + r && 0 <= r < base;
    assert base * (b - q) == r - a;
    MulGe(base, b - q);
    MulGe(base, q - b);
    assert base * (q - b) == -(base * (b - q));
  }

  lemma MulGe(base: nat, x: int)
    ensures x >= 1 ==> base * x >= base
  {
  }

  lemma {:induction false} DigitsStep(d: nat, q: nat, base: nat)
    requires base >= 2 && d < base && d + base * q > 0
    ensures DigitsOf(d + base * q, base) == [d] + DigitsOf(q, base)
  {
    DivMod(d, q, base);
  }

  lemma Positive(d: nat, q: nat, base: nat)
    requires base >= 2 && (d > 0 || q > 0)
    ensures d + base * q > 0
  {
    MulGe(base, q);
  }

  /** Canonical digits are unique. */
  lemma {:induction false} DigitsUnique(v: seq<nat>, base: nat)
    requires base >= 2 && DigitsOk(v, base) && Canonical(v)
    ensures DigitsOf(Value(v, base), base) == v
    decreases |v|
  {
    if v != [] {
      var rest := v[1..];
      assert rest != [] ==> rest[|rest| - 1] == v[|v| - 1];
      DigitsUnique(rest, base);
      assert v[0] > 0 || Value(rest, base) > 0;
      Positive(v[0], Value(rest, base), base);
      DigitsStep(v[0], Value(rest, base), base);
    }
  }

  function Zeros(n: nat): (v: seq<nat>)
    ensures |v| == n && forall i :: 0 <= i < n ==> v[i] == 0
  {
    seq(n, _ => 0)
  }

  /** Zeros at the high end add nothing. */
  lemma {:induction false} ValueZeros(v: seq<nat>, n: nat, base: nat)
    ensures Value(v + Zeros(n), base) == Value(v, base)
    decreases |v| + n
  {
    if v != [] {
      assert (v + Zeros(n))[1..] == v[1..] + Zeros(n);
      ValueZeros(v[1..], n, base);
    } else if n > 0 {
      assert ([] + Zeros(n))[1..] == [] + Zeros(n - 1);
      ValueZeros([], n - 1, base);
    } else {
      assert v + Zeros(n) == v;
    }
  }

  function Reverse<T>(s: seq<T>): (r: seq<T>)
    ensures |r| == |s| && forall i :: 0 <= i < |s| ==> r[i] == s[|s| - 1 - i]
  {
    seq(|s|, i requires 0 <= i < |s| => s[|s| - 1 - i])
  }

  /** Adding a digit at the high-order end of a big-endian number. */
  lemma {:induction false} ValueAppend(s: seq<nat>, d: nat, base: nat)
    ensures Value(Reverse(s + [d]), base) == base * Value(Reverse(s), base) + d
  {
    assert Reverse(s + [d]) == [d] + Reverse(s);
    assert ([d] + Reverse(s))[1..] == Reverse(s);
  }
}
