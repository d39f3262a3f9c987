/**
 The compact form of difficulty targets: one byte of size and 23 bits of mantissa. Over whole
 numbers, with the 32-bit truncation of the size written out.
 */
module Compact {
  import opened Digits

  function Pow256(k: nat): (p: nat)
    ensures p > 0
  {
    if k == 0 then 1 else 256 * Pow256(k - 1)
  }

  /** The number of bytes of a magnitude. */
  function NumBytes(n: nat): (s: nat)
    ensures n > 0 ==> s > 0 && Pow256(s - 1) <= n
    ensures n < Pow256(s)
  {
    if n == 0 then 0 else 1 + NumBytes(n / 256)
  }

  /** The compact form of a number that is not negative. */
  function GetCompact(n: nat): (c: nat)
    ensures c < 0x1_0000_0000
  {
    WordBound(n, NumBytes(n));
    Pack(NumBytes(n), Word(n, NumBytes(n)))
  }

  /** Size and mantissa in one word; a mantissa that reaches the sign bit loses a byte. */
  function Pack(nSize: nat, word: nat): (c: nat)
    requires word < 0x100_0000
    ensures c < 0x1_0000_0000
  {
    if word / 0x800000 % 2 == 1
    then ((nSize + 1) % 256) * 0x100_0000 + word / 256
    else (nSize % 256) * 0x100_0000 + word
  }

  /** Shifts by whole bytes. */
  function Shl(n: nat, k: nat): (r: nat)
  {
    Times(n, Pow256(k))
  }

  function Shr(n: nat, k: nat): (r: nat)
  {
    Over(n, Pow256(k))
  }

  function Times(a: nat, b: nat): (r: nat)
  {
    a * b
  }

  function Over(a: nat, b: nat): (r: nat)
    requires b > 0
  {
    a / b
  }

  /** The three highest bytes. */
  function Word(n: nat, nSize: nat): (w: nat)
  {
    if nSize <= 3 then Shl(n, 3 - nSize) else Shr(n, nSize - 3)
  }

  lemma {:induction false} WordBound(n: nat, nSize: nat)
    requires nSize == NumBytes(n)
    ensures Word(n, nSize) < 0x100_0000
  {
    PowSmall();
    if nSize > 3 {
      PowAdd(3, nSize - 3);
      DivLess(n, Pow256(nSize - 3), 0x100_0000);
    }
  }

  lemma PowSmall()
    ensures Pow256(0) == 1 && Pow256(1) == 256 && Pow256(2) == 0x1_0000 && Pow256(3) == 0x100_0000
  {
    assert Pow256(1) == 256 * Pow256(0);
    assert Pow256(2) == 256 * Pow256(1);
    assert Pow256(3) == 256 * Pow256(2);
  }

  lemma {:induction false} PowAdd(i: nat, j: nat)
    ensures Pow256(i + j) == Pow256(i) * Pow256(j)
  {
    if i > 0 {
      PowAdd(i - 1, j);
      assert Pow256(i + j) == 256 * Pow256(i - 1 + j);
    }
  }

  lemma {:induction false} PowGrows(i: nat, j: nat)
    requires i <= j
    ensures Pow256(i) <= Pow256(j)
    decreases j
  {
    if i < j {
      PowGrows(i, j - 1);
    }
  }

  lemma {:induction false} DivLess(n: nat, g: nat, bound: nat)
    requires g > 0
    ensures n / g < bound <==> n < bound * g
    ensures n / g * g <= n < n / g * g + g
  {
    var q, r := n / g, n % g;
    assert n == q * g + r && 0 <= r < g;
    if q < bound {
      MulLe(q + 1, bound, g);
      assert (q + 1) * g == q * g + g;
    } else {
      MulLe(bound, q, g);
    }
  }

  /** The number that a compact form stands for. */
  function SetCompact(c: nat): (n: int)
    requires c < 0x1_0000_0000
  {
    var nSize := c / 0x100_0000;
    var fNegative := c / 0x800000 % 2 == 1;
    var nWord := c % 0x800000;
    var magnitude := if nSize <= 3 then Shr(nWord, 3 - nSize) else Shl(nWord, nSize - 3);
    if fNegative then 0 - magnitude else magnitude
  }

  // ----- what rounding means -----

  /** The size byte of a number: its number of bytes with one bit to spare for the sign. */
  ghost function Exponent(n: nat): (e: nat)
  {
    NumBytes(2 * n)
  }

  /** The unit that a number is rounded to. */
  ghost function Grain(n: nat): (g: nat)
    ensures g > 0
  {
    if Exponent(n) <= 3 then 1 else Pow256(Exponent(n) - 3)
  }

  /** The number fits the size byte. */
  ghost predicate Fits(n: nat)
  {
    Exponent(n) <= 255
  }

  ghost function Rounded(n: nat): (r: int)
  {
    SetCompact(GetCompact(n))
  }

  lemma {:induction false} SizeUnique(n: nat, s: nat)
    requires n < Pow256(s) && (s > 0 ==> Pow256(s - 1) <= n)
    ensures NumBytes(n) == s
  {
    var t := NumBytes(n);
    if t < s {
      PowGrows(t, s - 1);
    } else if s < t {
      PowGrows(s, t - 1);
    }
  }

  /** The sign bit of the word is taken exactly when the size byte is one more than the number of bytes. */
  lemma {:induction false} SignBit(n: nat)
    ensures var s := NumBytes(n);
            Exponent(n) == if Word(n, s) >= 0x800000 then s + 1 else s
  {
    var s := NumBytes(n);
    PowSmall();
    if s >= 1 {
      PowAdd(1, s - 1);
      PowAdd(1, s);
      assert Pow256(s) == 256 * Pow256(s - 1);
      assert Word(n, s) >= 0x800000 <==> 2 * n >= Pow256(s) by {
        if s > 3 {
          PowAdd(3, s - 3);
          DivLess(n, Pow256(s - 3), 0x800000);
        }
      }
      SizeUnique(2 * n, if Word(n, s) >= 0x800000 then s + 1 else s);
    }
  }

  lemma {:induction false} Unpack(size: nat, word: nat)
    requires size <= 255 && word < 0x800000
    ensures size * 0x100_0000 + word < 0x1_0000_0000
    ensures SetCompact(size * 0x100_0000 + word) == if size <= 3 then Shr(word, 3 - size) else Shl(word, size - 3)
  {
    var c := size * 0x100_0000 + word;
    assert c / 0x100_0000 == size && c % 0x800000 == word && c / 0x800000 == 2 * size;
  }

  lemma {:induction false} Nested(a: nat, b: nat, q: nat, r1: nat, r2: nat)
    requires r1 < a && r2 < b
    ensures a * r2 + r1 < a * b
    ensures a * (b * q + r2) + r1 == (a * r2 + r1) + (a * b) * q
  {
    assert a * b == a * r2 + a * (b - r2);
    MulGe(a, b - r2);
    assert a * (b * q + r2) == a * (b * q) + a * r2;
    assert a * (b * q) == (a * b) * q;
  }

  lemma DivFacts(n: nat, d: nat) returns (q: nat, r: nat)
    requires d > 0
    ensures n == d * q + r && r < d && Over(n, d) == q
  {
    q, r := n / d, n % d;
  }

  lemma OverUnique(n: nat, d: nat, q: nat, r: nat)
    requires n == r + d * q && r < d
    ensures Over(n, d) == q
  {
    DivMod(r, q, d);
  }

  lemma {:induction false} DivDiv(n: nat, a: nat, b: nat)
    requires a > 0 && b > 0
    ensures a * b > 0 && Over(Over(n, a), b) == Over(n, a * b)
  {
    var q1, r1 := DivFacts(n, a);
    var q2, r2 := DivFacts(q1, b);
    Nested(a, b, q2, r1, r2);
    OverUnique(n, a * b, q2, a * r2 + r1);
  }

  lemma PackParts(nSize: nat, word: nat)
    requires word < 0x100_0000 && nSize <= 255 && (word >= 0x800000 ==> nSize < 255)
    ensures Pack(nSize, word) ==
            if word >= 0x800000 then (nSize + 1) * 0x100_0000 + word / 256 else nSize * 0x100_0000 + word
  {
  }

  /** The mantissa that goes with the size byte. */
  ghost function Mantissa(n: nat): (w: nat)
  {
    var w := Word(n, NumBytes(n));
    if w >= 0x800000 then w / 256 else w
  }

  lemma {:induction false} CompactParts(n: nat)
    requires Fits(n)
    ensures Mantissa(n) < 0x800000 && GetCompact(n) == Exponent(n) * 0x100_0000 + Mantissa(n)
  {
    var s := NumBytes(n);
    WordBound(n, s);
    SignBit(n);
    PackParts(s, Word(n, s));
  }

  lemma {:induction false} MantissaSmall(n: nat)
    requires Exponent(n) <= 3
    ensures Shr(Mantissa(n), 3 - Exponent(n)) == n
  {
    SignBit(n);
    PowSmall();
    var s := NumBytes(n);
    if s == 1 {
      assert Word(n, s) == n * 0x1_0000;
    } else if s == 2 {
      assert Word(n, s) == n * 256;
    }
  }

  lemma {:induction false} MantissaLarge(n: nat)
    requires Exponent(n) > 3
    ensures Mantissa(n) == n / Pow256(Exponent(n) - 3)
  {
    var s := NumBytes(n);
    SignBit(n);
    PowSmall();
    if s > 3 && Word(n, s) >= 0x800000 {
      PowAdd(1, s - 3);
      DivDiv(n, Pow256(s - 3), 256);
    }
  }

  /** Encoding and decoding rounds down to a multiple of the grain. */
  lemma {:induction false} RoundsToGrain(n: nat)
    requires Fits(n)
    ensures Rounded(n) == n / Grain(n) * Grain(n)
  {
    CompactParts(n);
    var e, w := Exponent(n), Mantissa(n);
    Unpack(e, w);
    if e <= 3 {
      MantissaSmall(n);
      assert Rounded(n) == n && Grain(n) == 1;
    } else {
      MantissaLarge(n);
      assert Rounded(n) == Shl(w, e - 3) && Grain(n) == Pow256(e - 3);
    }
  }

  /** The remaining error is less than one part in 2^15. */
  lemma {:induction false} RoundsDown(n: nat)
    requires Fits(n)
    ensures 0 <= Rounded(n) <= n
    ensures n > 0 ==> (n - Rounded(n)) * 0x8000 < n
  {
    RoundsToGrain(n);
    var e, g := Exponent(n), Grain(n);
    DivLess(n, g, 0);
    if e > 3 {
      GrainSmall(n);
    }
  }

  /** A rounded number has at least 2^15 grains. */
  lemma {:induction false} GrainSmall(n: nat)
    requires Exponent(n) > 3
    ensures 0x8000 * Grain(n) <= n
  {
    var e := Exponent(n);
    PowSmall();
    PowAdd(2, e - 3);
  }

  lemma {:induction false} ExponentAtMost(x: nat, s: nat)
    requires 2 * x < Pow256(s)
    ensures Exponent(x) <= s
  {
    if Exponent(x) > s {
      PowGrows(s, Exponent(x) - 1);
      assert false;
    }
  }

  lemma {:induction false} MultipleExact(x: nat, k: nat)
    requires Fits(x) && x == k * Grain(x)
    ensures Rounded(x) == x
  {
    RoundsToGrain(x);
    OverUnique(x, Grain(x), k, 0);
    assert x / Grain(x) == Over(x, Grain(x));
  }

  /** A shifted mantissa of 23 bits is a multiple of its own grain. */
  lemma {:induction false} ShiftedExact(w: nat, s: nat)
    requires w < 0x800000 && 3 < s <= 255
    ensures Fits(Shl(w, s - 3)) && Rounded(Shl(w, s - 3)) == Shl(w, s - 3)
  {
    var x := Shl(w, s - 3);
    ShiftedFits(w, s);
    var e := Exponent(x);
    if e <= 3 {
      MultipleExact(x, x);
    } else {
      PowAdd(s - e, e - 3);
      MulAssoc(w, Pow256(s - e), Pow256(e - 3));
      MultipleExact(x, w * Pow256(s - e));
    }
  }

  lemma {:induction false} ShiftedFits(w: nat, s: nat)
    requires w < 0x800000 && 3 < s
    ensures Exponent(Shl(w, s - 3)) <= s
  {
    PowSmall();
    PowAdd(3, s - 3);
    ShiftBound(w, Pow256(s - 3));
    ExponentAtMost(Shl(w, s - 3), s);
  }

  lemma MulAssoc(a: nat, b: nat, c: nat)
    ensures a * b >= 0 && (a * b) * c == a * (b * c)
  {
  }

  lemma ShiftBound(w: nat, p: nat)
    requires w < 0x800000 && p > 0
    ensures 2 * (w * p) < 0x100_0000 * p
  {
  }

  lemma {:induction false} SmallExact(x: nat)
    requires x < 0x800000
    ensures Fits(x) && Rounded(x) == x
  {
    PowSmall();
    ExponentAtMost(x, 3);
    MultipleExact(x, x);
  }

  /** What a compact form stands for is represented exactly, so rounding twice is rounding once. */
  lemma {:induction false} CompactIsExact(c: nat)
    requires c < 0x1_0000_0000 && SetCompact(c) >= 0
    ensures Fits(SetCompact(c)) && Rounded(SetCompact(c)) == SetCompact(c)
  {
    var s, w := c / 0x100_0000, c % 0x800000;
    if s <= 3 {
      SmallExact(SetCompact(c));
    } else if SetCompact(c) == 0 {
      SmallExact(0);
    } else {
      assert SetCompact(c) == Shl(w, s - 3);
      ShiftedExact(w, s);
    }
  }

  /** The rounded number is the greatest one with a compact form that does not exceed the number. */
  lemma {:induction false} GreatestCompact(n: nat, c: nat)
    requires Fits(n) && c < 0x1_0000_0000 && 0 <= SetCompact(c) <= n
    ensures SetCompact(c) <= Rounded(n)
  {
    var x := SetCompact(c);
    CompactIsExact(c);
    RoundsToGrain(n);
    RoundsToGrain(x);
    if Exponent(n) > 3 {
      if Exponent(x) == Exponent(n) {
        OverMonotone(x, n, Grain(n));
      } else {
        BelowGrain(n, x);
      }
    }
  }

  lemma OverMonotone(x: nat, n: nat, g: nat)
    requires x <= n && g > 0
    ensures x / g * g <= n / g * g
  {
    DivLess(x, g, n / g + 1);
    DivLess(n, g, n / g + 1);
    assert x / g <= n / g;
    MulLe(x / g, n / g, g);
  }

  lemma MulLe(a: nat, b: nat, g: nat)
    requires a <= b
    ensures a * g <= b * g
  {
  }

  lemma {:induction false} BelowGrain(n: nat, x: nat)
    requires x <= n && Exponent(n) > 3 && Exponent(x) != Exponent(n)
    ensures x <= n / Grain(n) * Grain(n)
  {
    var e, g := Exponent(n), Grain(n);
    assert Exponent(x) < e by {
      if Exponent(x) > e {
        PowGrows(e, Exponent(x) - 1);
        assert false;
      }
    }
    PowGrows(Exponent(x), e - 1);
    PowSmall();
    PowAdd(2, e - 3);
    GrainSmall(n);
    DivLess(n, g, 0x8000);
    MulLe(0x8000, n / g, g);
  }

  /** Rounding keeps the order. */
  lemma {:induction false} RoundedMonotone(a: nat, b: nat)
    requires a <= b && Fits(b)
    ensures Fits(a) && Rounded(a) <= Rounded(b)
  {
    ExponentAtMost(a, Exponent(b));
    RoundsDown(a);
    GreatestCompact(b, GetCompact(a));
  }

  /** Rounding twice is rounding once. */
  lemma {:induction false} RoundedIdempotent(n: nat)
    requires Fits(n)
    ensures Rounded(n) >= 0 && Rounded(Rounded(n)) == Rounded(n)
  {
    RoundsDown(n);
    CompactIsExact(GetCompact(n));
  }

  // ----- signs -----

  lemma {:induction false} SignFree(n: nat)
    ensures GetCompact(n) % 0x100_0000 < 0x800000
    ensures GetCompact(n) + 0x800000 < 0x1_0000_0000
  {
    WordBound(n, NumBytes(n));
    PackFree(NumBytes(n), Word(n, NumBytes(n)));
  }

  lemma {:induction false} PackFree(nSize: nat, word: nat)
    requires word < 0x100_0000
    ensures Pack(nSize, word) % 0x100_0000 < 0x800000 && Pack(nSize, word) + 0x800000 < 0x1_0000_0000
  {
    if word / 0x800000 % 2 == 1 {
      LowPart((nSize + 1) % 256, word / 256);
    } else {
      LowPart(nSize % 256, word);
    }
  }

  lemma LowPart(size: nat, low: nat)
    requires size <= 255 && low < 0x800000
    ensures (size * 0x100_0000 + low) % 0x100_0000 == low && size * 0x100_0000 + low + 0x800000 < 0x1_0000_0000
  {
  }

  /** The compact form of any number: the sign goes into the free bit above the mantissa. */
  function SignedCompact(n: int): (c: nat)
    ensures c < 0x1_0000_0000
  {
    if n >= 0 then GetCompact(n) else SignFree(0 - n); GetCompact(0 - n) + 0x800000
  }

  /** A negative number is read back as what its magnitude is rounded to, negated. */
  lemma {:induction false} SignKept(n: int)
    requires Fits(if n >= 0 then n else 0 - n)
    ensures SetCompact(SignedCompact(n)) == if n >= 0 then Rounded(n) else 0 - Rounded(0 - n)
  {
    if n < 0 {
      SignFree(0 - n);
      SignBitSet(GetCompact(0 - n));
    }
  }

  lemma {:induction false} SignBitSet(c: nat)
    requires c % 0x100_0000 < 0x800000 && c + 0x800000 < 0x1_0000_0000
    ensures SetCompact(c + 0x800000) == 0 - SetCompact(c)
  {
    var size, word := c / 0x100_0000, c % 0x100_0000;
    assert c == size * 0x100_0000 + word;
    assert c / 0x800000 == 2 * size && c % 0x800000 == word;
    var d := c + 0x800000;
    assert d / 0x100_0000 == size && d / 0x800000 == 2 * size + 1 && d % 0x800000 == word;
  }

  // ----- one form for each number -----

  /** The highest byte of the mantissa is used, bytes that a small size cuts off are zero, and zero has no sign. */
  predicate Normal(c: nat)
  {
    var size, word := c / 0x100_0000, c % 0x800000;
    c == 0 || (size >= 1 && word >= 0x8000 && (size == 1 ==> word % 0x1_0000 == 0) && (size == 2 ==> word % 256 == 0))
  }

  /** Size and mantissa of what is encoded. */
  lemma {:induction false} EncodesNormal(n: nat)
    requires Fits(n)
    ensures Normal(GetCompact(n)) && GetCompact(n) % 0x100_0000 < 0x800000
  {
    CompactParts(n);
    NormalParts(GetCompact(n), Exponent(n), Mantissa(n));
    if n == 0 {
      assert NumBytes(0) == 0;
    } else if Exponent(n) <= 3 {
      SmallMantissa(n);
    } else {
      MantissaLarge(n);
      GrainSmall(n);
      DivLess(n, Grain(n), 0x8000);
    }
  }

  lemma NormalParts(c: nat, size: nat, word: nat)
    requires c == size * 0x100_0000 + word && word < 0x800000
    ensures c / 0x100_0000 == size && c % 0x800000 == word && c % 0x100_0000 == word
  {
    DivMod(word, size, 0x100_0000);
    DivMod(word, 2 * size, 0x800000);
  }

  lemma {:induction false} SmallMantissa(n: nat)
    requires 1 <= n && Exponent(n) <= 3
    ensures 1 <= Exponent(n) && 0x8000 <= Mantissa(n) == n * Pow256(3 - Exponent(n))
    ensures (Exponent(n) == 1 ==> Mantissa(n) % 0x1_0000 == 0) && (Exponent(n) == 2 ==> Mantissa(n) % 256 == 0)
  {
    SignBit(n);
    PowSmall();
    var s := NumBytes(n);
    if s == 1 {
      assert Word(n, s) == n * 0x1_0000;
    } else if s == 2 {
      assert Word(n, s) == n * 256;
    }
  }

  /** A normal form without a sign is what its number is encoded as. */
  lemma {:induction false} NormalIsEncoding(c: nat)
    requires Normal(c) && c < 0x1_0000_0000 && c % 0x100_0000 < 0x800000
    ensures SetCompact(c) >= 0 && GetCompact(SetCompact(c)) == c
  {
    var s, w := c / 0x100_0000, c % 0x800000;
    if c == 0 {
      assert NumBytes(0) == 0;
    } else if s <= 3 {
      NormalSmall(c, s, w);
    } else {
      NormalLarge(c, s, w);
    }
  }

  lemma {:induction false} NormalSmall(c: nat, s: nat, w: nat)
    requires c == s * 0x100_0000 + w && 0x8000 <= w < 0x800000 && 1 <= s <= 3
    requires (s == 1 ==> w % 0x1_0000 == 0) && (s == 2 ==> w % 256 == 0)
    ensures c < 0x1_0000_0000 && SetCompact(c) >= 0 && GetCompact(SetCompact(c)) == c
  {
    Unpack(s, w);
    PowSmall();
    var n := SetCompact(c);
    assert n == w / Pow256(3 - s);
    assert w == n * Pow256(3 - s);
    assert Pow256(s - 1) <= 2 * n < Pow256(s);
    SizeUnique(2 * n, s);
    CompactParts(n);
    SmallMantissa(n);
  }

  lemma {:induction false} NormalLarge(c: nat, s: nat, w: nat)
    requires c == s * 0x100_0000 + w && 0x8000 <= w < 0x800000 && 3 < s <= 255
    ensures c < 0x1_0000_0000 && SetCompact(c) >= 0 && GetCompact(SetCompact(c)) == c
  {
    Unpack(s, w);
    ShiftedSize(w, s);
    CompactParts(Shl(w, s - 3));
    ShiftedMantissa(w, s);
  }

  lemma {:induction false} ShiftedMantissa(w: nat, s: nat)
    requires 3 < s && Exponent(Shl(w, s - 3)) == s
    ensures Mantissa(Shl(w, s - 3)) == w
  {
    MantissaLarge(Shl(w, s - 3));
    var p := Pow256(s - 3);
    assert Shl(w, s - 3) == 0 + p * w;
    OverUnique(Shl(w, s - 3), p, w, 0);
  }

  lemma {:induction false} ShiftedSize(w: nat, s: nat)
    requires 0x8000 <= w < 0x800000 && 3 < s
    ensures Exponent(Shl(w, s - 3)) == s
  {
    var p := Pow256(s - 3);
    ShiftedFits(w, s);
    PowSmall();
    PowAdd(2, s - 3);
    MulLe(0x8000, w, p);
    if Exponent(Shl(w, s - 3)) < s {
      PowGrows(Exponent(Shl(w, s - 3)), s - 1);
    }
  }

  /** No two normal forms stand for the same number. */
  lemma {:induction false} NormalUnique(c: nat, d: nat)
    requires Normal(c) && Normal(d) && c < 0x1_0000_0000 && d < 0x1_0000_0000 && SetCompact(c) == SetCompact(d)
    ensures c == d
  {
    var c', d' := Unsigned(c), Unsigned(d);
    NormalIsEncoding(c');
    NormalIsEncoding(d');
  }

  /** Without its sign. */
  ghost function Unsigned(c: nat): (r: nat)
    requires Normal(c) && c < 0x1_0000_0000
    ensures Normal(r) && r <= c && r % 0x100_0000 < 0x800000
    ensures SetCompact(r) == if SetCompact(c) >= 0 then SetCompact(c) else 0 - SetCompact(c)
    ensures r == if SetCompact(c) >= 0 then c else c - 0x800000
  {
    if c / 0x800000 % 2 == 1 then NormalSign(c); c - 0x800000 else c
  }

  /** The sign bit makes a number negative that has the same magnitude without it. */
  lemma {:induction false} NormalSign(c: nat)
    requires Normal(c) && c < 0x1_0000_0000 && c / 0x800000 % 2 == 1
    ensures c >= 0x800000 && Normal(c - 0x800000) && (c - 0x800000) % 0x100_0000 < 0x800000
    ensures SetCompact(c) < 0 && SetCompact(c - 0x800000) == 0 - SetCompact(c)
  {
    var size, word := c / 0x100_0000, c % 0x800000;
    assert c == size * 0x100_0000 + 0x800000 + word;
    NormalParts(c - 0x800000, size, word);
    Unpack(size, word);
    NormalPositive(size, word);
  }

  lemma {:induction false} NormalNegated(c: nat)
    requires Normal(c) && 0 < c && c % 0x100_0000 < 0x800000
    ensures Normal(c + 0x800000)
  {
    var size, word := c / 0x100_0000, c % 0x100_0000;
    assert c == size * 0x100_0000 + word;
    NormalParts(c, size, word);
    var d := c + 0x800000;
    assert d / 0x100_0000 == size && d % 0x800000 == word;
  }

  lemma NormalPositive(size: nat, word: nat)
    requires size >= 1 && word >= 0x8000 && (size == 1 ==> word % 0x1_0000 == 0) && (size == 2 ==> word % 256 == 0)
    ensures (if size <= 3 then Shr(word, 3 - size) else Shl(word, size - 3)) > 0
  {
    PowSmall();
  }
}
