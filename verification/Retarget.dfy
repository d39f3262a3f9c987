/** The difficulty required of each block, outside the test network. */
module Retarget {
  import opened Compact

  const TARGET_TIMESPAN := 14 * 24 * 60 * 60
  const TARGET_SPACING := 10 * 60
  const INTERVAL := TARGET_TIMESPAN / TARGET_SPACING

  type Bits = n: nat | n < 0x1_0000_0000

  datatype Header = Header(nTime: nat, nBits: Bits)

  /** The main network's easiest target is 2^255 - 1; the rest holds for every limit that has a compact form. */
  lemma {:induction false} MainLimitFits(limit: nat)
    requires limit == 128 * Pow256(31) - 1
    ensures Fits(limit)
  {
    PowAdd(1, 31);
    PowSmall();
    ExponentAtMost(limit, 32);
  }

  /** The time that an interval of blocks took, kept between a quarter and four times its aim. */
  function Timespan(actual: int): (t: int)
    ensures TARGET_TIMESPAN <= 4 * t && t <= 4 * TARGET_TIMESPAN
  {
    if actual < TARGET_TIMESPAN / 4 then TARGET_TIMESPAN / 4
    else if actual > TARGET_TIMESPAN * 4 then TARGET_TIMESPAN * 4
    else actual
  }

  /** The new target before it is rounded. */
  function Scaled(limit: nat, target: nat, timespan: nat): (n: nat)
  {
    var bnNew := Over(Times(target, timespan), TARGET_TIMESPAN);
    if bnNew > limit then limit else bnNew
  }

  /** The bits after an interval that took the given time; a negative target is divided towards zero. */
  function Retargeted(limit: nat, bits: Bits, actual: int): (r: Bits)
  {
    var target, t := SetCompact(bits), Timespan(actual);
    SignedCompact(if target >= 0 then Scaled(limit, target, t) else 0 - Over(Times(0 - target, t), TARGET_TIMESPAN))
  }

  /** All targets are between nothing and the limit. */
  ghost predicate TargetsOk(limit: nat, chain: seq<Header>)
  {
    forall i :: 0 <= i < |chain| ==> 0 <= SetCompact(chain[i].nBits) <= limit
  }

  /** The bits required after a chain of headers. */
  ghost function NextBits(limit: nat, chain: seq<Header>): (bits: Bits)
  {
    if chain == [] then GetCompact(limit)
    else
      var last := chain[|chain| - 1];
      if |chain| % INTERVAL != 0 then last.nBits
      else Retargeted(limit, last.nBits, last.nTime - chain[|chain| - INTERVAL].nTime)
  }

  // ----- the rule -----

  /** The greatest number with a compact form that is not above x. */
  ghost predicate Greatest(x: nat, n: int)
  {
    0 <= n <= x && forall c: Bits {:trigger SetCompact(c)} :: SetCompact(c) <= x ==> SetCompact(c) <= n
  }

  /** The seconds that count: at least half a week and at most eight. */
  function Counted(took: int): (t: nat)
  {
    if took < 302400 then 302400 else if took > 4838400 then 4838400 else took
  }

  /** The new bits for an old target and the seconds that count, relative to two weeks; negative targets shrink towards zero. */
  ghost predicate Obeys(limit: nat, target: int, t: nat, bits: Bits)
  {
    if target >= 0 then Normal(bits) && Greatest(Least(limit, Due(target, t)), SetCompact(bits))
    else Fits(Due(0 - target, t)) ==> Normal(bits) && Greatest(Due(0 - target, t), 0 - SetCompact(bits))
  }

  function Due(target: nat, t: nat): (r: nat)
  {
    target * t / 1209600
  }

  /**
   The rule in plain numbers: within an interval of 2016 blocks the bits stay; after one the target
   grows with the time that the interval took, up to the limit, and what has no compact form is
   rounded down.
   */
  ghost predicate Required(limit: nat, chain: seq<Header>, bits: Bits)
  {
    if chain == [] then Normal(bits) && Greatest(limit, SetCompact(bits))
    else if |chain| % 2016 != 0 then bits == chain[|chain| - 1].nBits
    else Obeys(limit, SetCompact(chain[|chain| - 1].nBits), Counted(Took(chain)), bits)
  }

  /** The time between the first and the last block of the last interval. */
  function Took(chain: seq<Header>): (seconds: int)
    requires chain != [] && |chain| % 2016 == 0
  {
    chain[|chain| - 1].nTime - chain[|chain| - 2016].nTime
  }

  function Least(a: nat, b: nat): (r: nat)
  {
    if b > a then a else b
  }

  lemma {:induction false} GreatestRounded(x: nat)
    requires Fits(x)
    ensures Greatest(x, Rounded(x)) && Normal(GetCompact(x))
  {
    RoundsDown(x);
    EncodesNormal(x);
    forall c: Bits | SetCompact(c) <= x
      ensures SetCompact(c) <= Rounded(x)
    {
      if SetCompact(c) >= 0 {
        GreatestCompact(x, c);
      }
    }
  }

  lemma {:induction false} NextRequired(limit: nat, chain: seq<Header>)
    ensures Fits(limit) ==> Required(limit, chain, NextBits(limit, chain))
  {
    if Fits(limit) {
      if chain == [] {
        GreatestRounded(limit);
      } else if |chain| % INTERVAL == 0 {
        NextRetargeted(limit, chain);
        RetargetRule(limit, chain[|chain| - 1].nBits, Took(chain));
      }
    }
  }

  lemma NextRetargeted(limit: nat, chain: seq<Header>)
    requires chain != [] && |chain| % 2016 == 0
    ensures NextBits(limit, chain) == Retargeted(limit, chain[|chain| - 1].nBits, Took(chain))
  {
    WholeInterval(|chain|);
  }

  /** One retarget follows the rule. */
  lemma {:induction false} RetargetRule(limit: nat, bits: Bits, actual: int)
    requires Fits(limit)
    ensures Obeys(limit, SetCompact(bits), Counted(actual), Retargeted(limit, bits, actual))
  {
    var target, t := SetCompact(bits), Counted(actual);
    SameTime(actual);
    if target >= 0 {
      DueIsScaled(limit, target, t);
      ObeysPositive(limit, target, t, Retargeted(limit, bits, actual));
    } else {
      DueIsScaled(limit, 0 - target, t);
      ObeysNegative(limit, target, t, Retargeted(limit, bits, actual));
    }
  }

  lemma SameTime(actual: int)
    ensures Timespan(actual) == Counted(actual)
  {
  }

  lemma {:induction false} ObeysPositive(limit: nat, target: nat, t: nat, bits: Bits)
    requires Fits(limit) && bits == GetCompact(Least(limit, Due(target, t)))
    ensures Obeys(limit, target, t, bits)
  {
    var x := Least(limit, Due(target, t));
    ExponentAtMost(x, Exponent(limit));
    GreatestRounded(x);
  }

  lemma DueIsScaled(limit: nat, target: nat, t: nat)
    ensures Over(Times(target, t), TARGET_TIMESPAN) == Due(target, t)
    ensures Scaled(limit, target, t) == Least(limit, Due(target, t))
  {
  }

  lemma {:induction false} ObeysNegative(limit: nat, target: int, t: nat, bits: Bits)
    requires target < 0 && bits == SignedCompact(0 - Due(0 - target, t))
    ensures Obeys(limit, target, t, bits)
  {
    var x := Due(0 - target, t);
    if Fits(x) {
      GreatestRounded(x);
      NegativeNormal(x);
    }
  }

  lemma {:induction false} NegativeNormal(x: nat)
    requires Fits(x)
    ensures Normal(SignedCompact(0 - x)) && SetCompact(SignedCompact(0 - x)) == 0 - Rounded(x)
  {
    SignKept(0 - x);
    EncodesNormal(x);
    if x == 0 {
      SmallExact(0);
    } else {
      NormalNonzero(x);
      NormalNegated(GetCompact(x));
    }
  }

  lemma {:induction false} NormalNonzero(x: nat)
    requires Fits(x) && x > 0
    ensures GetCompact(x) > 0
  {
    RoundsDown(x);
    assert SetCompact(0) == 0;
  }

  /** The rule leaves no choice: one sequence of bits follows it, unless a negative target is out of range. */
  lemma {:induction false} RequiredUnique(limit: nat, chain: seq<Header>, a: Bits, b: Bits)
    requires Required(limit, chain, a) && Required(limit, chain, b)
    requires chain != [] && |chain| % 2016 == 0 ==>
               var target := SetCompact(chain[|chain| - 1].nBits); target < 0 ==> Fits(Due(0 - target, Counted(Took(chain))))
    ensures a == b
  {
    if chain == [] {
      GreatestUnique(limit, a, b);
      NormalUnique(a, b);
    } else if |chain| % 2016 == 0 {
      ObeysUnique(limit, SetCompact(chain[|chain| - 1].nBits), Counted(Took(chain)), a, b);
    }
  }

  lemma {:induction false} GreatestUnique(x: nat, a: Bits, b: Bits)
    requires Greatest(x, SetCompact(a)) && Greatest(x, SetCompact(b))
    ensures SetCompact(a) == SetCompact(b)
  {
  }

  lemma {:induction false} ObeysUnique(limit: nat, target: int, t: nat, a: Bits, b: Bits)
    requires Obeys(limit, target, t, a) && Obeys(limit, target, t, b) && (target < 0 ==> Fits(Due(0 - target, t)))
    ensures a == b
  {
    if target >= 0 {
      GreatestUnique(Least(limit, Due(target, t)), a, b);
    } else {
      MagnitudeUnique(Due(0 - target, t), a, b);
    }
    NormalUnique(a, b);
  }

  lemma {:induction false} MagnitudeUnique(x: nat, a: Bits, b: Bits)
    requires Normal(a) && Normal(b) && Greatest(x, 0 - SetCompact(a)) && Greatest(x, 0 - SetCompact(b))
    ensures SetCompact(a) == SetCompact(b)
  {
    GreatestUnique(x, Unsigned(a), Unsigned(b));
  }

  /** The slower an interval, the easier the target after it. */
  lemma {:induction false} SlowerIsEasier(limit: nat, chain: seq<Header>, other: seq<Header>)
    requires Fits(limit) && chain != [] && other != [] && |chain| % 2016 == 0 && |other| % 2016 == 0
    requires chain[|chain| - 1].nBits == other[|other| - 1].nBits && SetCompact(chain[|chain| - 1].nBits) >= 0
    requires Took(chain) <= Took(other)
    ensures SetCompact(NextBits(limit, chain)) <= SetCompact(NextBits(limit, other))
  {
    NextRequired(limit, chain);
    NextRequired(limit, other);
    var target := SetCompact(chain[|chain| - 1].nBits);
    ObeysMonotone(limit, target, Counted(Took(chain)), Counted(Took(other)), NextBits(limit, chain), NextBits(limit, other));
  }

  lemma {:induction false} ObeysMonotone(limit: nat, target: nat, t: nat, u: nat, a: Bits, b: Bits)
    requires t <= u && Obeys(limit, target, t, a) && Obeys(limit, target, u, b)
    ensures SetCompact(a) <= SetCompact(b)
  {
    DueMonotone(target, t, u);
  }

  lemma DueMonotone(target: nat, t: nat, u: nat)
    requires t <= u
    ensures Due(target, t) <= Due(target, u)
  {
    MulLe(t, u, target);
  }

  /** The loop that goes back to the first block of the interval. */
  method FirstOfInterval(chain: seq<Header>) returns (pindexFirst: nat)
    requires |chain| >= INTERVAL
    ensures pindexFirst == |chain| - INTERVAL
  {
    pindexFirst := |chain| - 1;
    for i := 0 to INTERVAL - 1
      invariant pindexFirst == |chain| - 1 - i
    {
      pindexFirst := pindexFirst - 1;
    }
  }

  /** The bits that are required of the block after a chain of headers. */
  method GetNextWorkRequired(limit: nat, chain: seq<Header>) returns (bits: Bits)
    ensures bits == NextBits(limit, chain)
    ensures Fits(limit) ==> Required(limit, chain, bits)
  {
    NextRequired(limit, chain);
    if chain == [] {
      return GetCompact(limit);
    }
    var pindexLast := |chain| - 1;
    if (pindexLast + 1) % INTERVAL != 0 {
      return chain[pindexLast].nBits;
    }
    WholeInterval(|chain|);
    var pindexFirst := FirstOfInterval(chain);
    var nActualTimespan := chain[pindexLast].nTime - chain[pindexFirst].nTime;
    bits := Retargeted(limit, chain[pindexLast].nBits, nActualTimespan);
  }

  lemma {:induction false} ScaledBounds(limit: nat, target: nat, timespan: nat)
    requires TARGET_TIMESPAN <= 4 * timespan && timespan <= 4 * TARGET_TIMESPAN
    ensures Scaled(limit, target, timespan) <= limit && Scaled(limit, target, timespan) <= 4 * target
    ensures target <= limit ==> target / 4 <= Scaled(limit, target, timespan)
  {
    var t := TARGET_TIMESPAN;
    var q, r := DivFacts(Times(target, timespan), t);
    MulLe(timespan, 4 * t, target);
    MulLe(t, 4 * timespan, target);
    assert Times(target, timespan) == timespan * target;
  }

  /** A target within reach of another: at most four times as easy, and no harder than a quarter up to rounding. */
  ghost predicate Near(limit: nat, target: int, after: int)
  {
    0 <= after <= limit && 0 <= target && after <= 4 * target && Rounded(target / 4) <= after
  }

  /** One retarget: never above the limit, at most four times easier, and at most four times harder up to rounding. */
  lemma {:induction false} RetargetBounds(limit: nat, target: nat, actual: int)
    requires Fits(limit) && target <= limit
    ensures Near(limit, target, Rounded(Scaled(limit, target, Timespan(actual))))
  {
    var s := Scaled(limit, target, Timespan(actual));
    ScaledBounds(limit, target, Timespan(actual));
    ExponentAtMost(s, Exponent(limit));
    RoundsDown(s);
    RoundedMonotone(target / 4, s);
  }

  /** An interval that took exactly as long as it should leaves the target alone. */
  lemma {:induction false} OnTime(limit: nat, chain: seq<Header>)
    requires Fits(limit) && chain != [] && |chain| % 2016 == 0 && Took(chain) == TARGET_TIMESPAN
    requires 0 <= SetCompact(chain[|chain| - 1].nBits) <= limit
    ensures SetCompact(NextBits(limit, chain)) == SetCompact(chain[|chain| - 1].nBits)
  {
    var n := SetCompact(chain[|chain| - 1].nBits);
    NextRequired(limit, chain);
    assert Due(n, TARGET_TIMESPAN) == n;
  }

  lemma {:induction false} NearItself(limit: nat, target: nat)
    requires Fits(limit) && target <= limit
    ensures Near(limit, target, target)
  {
    ExponentAtMost(target / 4, Exponent(limit));
    RoundsDown(target / 4);
  }

  lemma {:induction false} NearRetargeted(limit: nat, bits: Bits, actual: int)
    requires Fits(limit) && 0 <= SetCompact(bits) <= limit
    ensures Near(limit, SetCompact(bits), SetCompact(Retargeted(limit, bits, actual)))
  {
    RetargetBounds(limit, SetCompact(bits), actual);
  }

  /** The required target, from the targets before it. */
  lemma {:induction false} NextTarget(limit: nat, chain: seq<Header>)
    requires Fits(limit) && TargetsOk(limit, chain)
    ensures 0 <= SetCompact(NextBits(limit, chain)) <= limit
    ensures chain != [] ==> Near(limit, SetCompact(chain[|chain| - 1].nBits), SetCompact(NextBits(limit, chain)))
  {
    if chain == [] {
      RoundsDown(limit);
    } else {
      NextNear(limit, chain, chain[|chain| - 1]);
    }
  }

  lemma WholeInterval(n: nat)
    requires n > 0 && n % INTERVAL == 0
    ensures n >= INTERVAL
  {
  }

  lemma {:induction false} NextNear(limit: nat, chain: seq<Header>, last: Header)
    requires Fits(limit) && TargetsOk(limit, chain) && chain != [] && last == chain[|chain| - 1]
    ensures Near(limit, SetCompact(last.nBits), SetCompact(NextBits(limit, chain)))
  {
    if |chain| % INTERVAL == 0 {
      NextRetargeted(limit, chain);
      NearRetargeted(limit, last.nBits, Took(chain));
    } else {
      NearItself(limit, SetCompact(last.nBits));
      assert NextBits(limit, chain) == last.nBits;
    }
  }

  lemma TargetsMore(limit: nat, chain: seq<Header>)
    requires chain != [] && TargetsOk(limit, chain[..|chain| - 1])
    ensures 0 <= SetCompact(chain[|chain| - 1].nBits) <= limit ==> TargetsOk(limit, chain)
  {
    assert forall i :: 0 <= i < |chain| - 1 ==> chain[i] == chain[..|chain| - 1][i];
  }

  /** A first header with any target within the limit, and then headers that carry the bits required of them. */
  ghost predicate Accepted(limit: nat, chain: seq<Header>)
  {
    if |chain| <= 1 then TargetsOk(limit, chain)
    else
      var before := chain[..|chain| - 1];
      Accepted(limit, before) && chain[|chain| - 1].nBits == NextBits(limit, before)
  }

  /** The main network's first block, whose bits are not checked, and the bits that would be required of it. */
  lemma {:induction false} MainGenesisAccepted(limit: nat, nTime: nat)
    requires limit == 128 * Pow256(31) - 1
    ensures Accepted(limit, [Header(nTime, 0x1f03ffff)])
    ensures Accepted(limit, [Header(nTime, NextBits(limit, []))])
  {
    GenesisTarget(limit);
    AcceptedAlone(limit, Header(nTime, 0x1f03ffff));
    FirstTarget(limit);
    AcceptedAlone(limit, Header(nTime, NextBits(limit, [])));
  }

  lemma AcceptedAlone(limit: nat, first: Header)
    requires 0 <= SetCompact(first.nBits) <= limit
    ensures Accepted(limit, [first])
  {
  }

  lemma {:induction false} FirstTarget(limit: nat)
    requires limit == 128 * Pow256(31) - 1
    ensures 0 <= SetCompact(NextBits(limit, [])) <= limit
  {
    MainLimitFits(limit);
    RoundsDown(limit);
  }

  lemma {:induction false} GenesisTarget(limit: nat)
    requires limit == 128 * Pow256(31) - 1
    ensures 0 <= SetCompact(0x1f03ffff) <= limit
  {
    Unpack(31, 0x3ffff);
    var p := Pow256(28);
    assert SetCompact(0x1f03ffff) == Times(0x3ffff, p);
    assert Pow256(31) == 0x100_0000 * p by {
      PowAdd(3, 28);
      PowSmall();
    }
    assert Times(0x3ffff, p) == 0x3ffff * p;
  }

  /** Every target on an accepted chain is within the limit. */
  lemma {:induction false} AcceptedTargets(limit: nat, chain: seq<Header>)
    requires Fits(limit) && Accepted(limit, chain)
    ensures TargetsOk(limit, chain)
    decreases |chain|
  {
    if |chain| > 1 {
      var before := chain[..|chain| - 1];
      AcceptedTargets(limit, before);
      NextTarget(limit, before);
      TargetsMore(limit, chain);
    }
  }

  /** Along every accepted chain a target is at most four times the one before, and at least its quarter up to rounding. */
  lemma {:induction false} AcceptedSteps(limit: nat, chain: seq<Header>, i: nat)
    requires Fits(limit) && Accepted(limit, chain) && 0 < i < |chain|
    ensures Near(limit, SetCompact(chain[i - 1].nBits), SetCompact(chain[i].nBits))
    decreases |chain|
  {
    var before := chain[..|chain| - 1];
    if i < |chain| - 1 {
      AcceptedSteps(limit, before, i);
    } else {
      AcceptedTargets(limit, before);
      NextTarget(limit, before);
    }
  }
}
