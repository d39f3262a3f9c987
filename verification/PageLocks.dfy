/**
 Stacking memory locks: a count per page, so that a page stays locked as long as any live
 range touches it. Addresses wrap around at the end of the address space.
 */
module PageLocks {
  import opened Digits

  const ADDRESS_SPACE: nat := 0x1_0000_0000_0000_0000

  type Word = n: nat | n < ADDRESS_SPACE

  datatype Range = Range(p: Word, size: Word)

  /** The base address of the page of an address: the address with its low bits masked off. */
  function PageOf(a: nat, pageSize: nat): (page: nat)
    requires pageSize > 0
    ensures page <= a < page + pageSize && page % pageSize == 0
  {
    assert (a - a % pageSize) % pageSize == 0 by {
      PageAligned(a, pageSize);
    }
    a - a % pageSize
  }

  lemma PageAligned(a: nat, d: nat)
    requires d > 0
    ensures (a - a % d) % d == 0
  {
    assert a - a % d == d * (a / d);
    DivMod(0, a / d, d);
  }

  lemma Quotient(x: nat, d: nat) returns (i: nat)
    requires d > 0 && x % d == 0
    ensures x == d * i
  {
    i := x / d;
  }

  /** Some byte of the range lies on the page. */
  ghost predicate Touches(r: Range, page: nat, pageSize: nat)
    requires pageSize > 0
  {
    r.size > 0 && page % pageSize == 0 && r.p < page + pageSize && page < r.p + r.size
  }

  /** Page addresses are at least a page apart. */
  lemma {:induction false} Gap(x: nat, y: nat, d: nat)
    requires d > 0 && x % d == 0 && y % d == 0 && x < y + d
    ensures x <= y
  {
    var i: int := Quotient(x, d);
    var j: int := Quotient(y, d);
    MulGe(d, i - j);
    Minus(d, i, j);
    NotNegative(d, j - i);
    Minus(d, j, i);
  }

  lemma Minus(d: nat, i: int, j: int)
    ensures d * (i - j) == d * i - d * j
  {
  }

  lemma NotNegative(d: nat, k: int)
    ensures k >= 0 ==> d * k >= 0
  {
  }

  /** The page of the last byte of a range; the address of that byte wraps around. */
  function LastPage(r: Range, pageSize: nat): (page: nat)
    requires pageSize > 0
    ensures page % pageSize == 0 && page < ADDRESS_SPACE
  {
    PageOf((r.p + (if r.size > 0 then r.size - 1 else 0)) % ADDRESS_SPACE, pageSize)
  }

  /** The loops over the pages of a range come to this page. */
  ghost predicate Covers(r: Range, page: nat, pageSize: nat)
    requires pageSize > 0
  {
    r.size > 0 && page % pageSize == 0 && PageOf(r.p, pageSize) <= page <= LastPage(r, pageSize)
  }

  /** The pages from the first to the last one of a range that does not wrap around are those that it touches. */
  lemma {:induction false} CoversTouched(r: Range, page: nat, pageSize: nat)
    requires pageSize > 0 && r.p + r.size <= ADDRESS_SPACE
    ensures Covers(r, page, pageSize) <==> Touches(r, page, pageSize)
  {
    if r.size > 0 && page % pageSize == 0 {
      assert LastPage(r, pageSize) == PageOf(r.p + r.size - 1, pageSize);
      if Touches(r, page, pageSize) {
        Gap(PageOf(r.p, pageSize), page, pageSize);
        Gap(page, LastPage(r, pageSize), pageSize);
      }
    }
  }

  /** A range that wraps around covers no page, unless it comes back to the page where it starts. */
  lemma {:induction false} CoversWrapped(r: Range, page: nat, pageSize: nat)
    requires pageSize > 0 && r.p + r.size > ADDRESS_SPACE
    ensures Covers(r, page, pageSize) <==> page == PageOf(r.p, pageSize) == LastPage(r, pageSize)
  {
    var last := r.p + r.size - 1 - ADDRESS_SPACE;
    assert (r.p + r.size - 1) % ADDRESS_SPACE == last < r.p;
    Gap(LastPage(r, pageSize), PageOf(r.p, pageSize), pageSize);
  }

  // ----- whether the loops over pages end -----

  /** A loop from a page to an end, cut off after a number of tests of its condition. */
  predicate Ends(page: nat, end: nat, pageSize: nat, rounds: nat)
    decreases rounds
  {
    rounds > 0 && (page > end || Ends((page + pageSize) % ADDRESS_SPACE, end, pageSize, rounds - 1))
  }

  ghost predicate Terminates(start: nat, end: nat, pageSize: nat)
  {
    exists rounds: nat :: Ends(start, end, pageSize, rounds)
  }

  /** The loop ends exactly if its end is not the last page of the address space. */
  lemma {:induction false} LoopEndsIff(start: nat, end: nat, pageSize: nat)
    requires 0 < pageSize && ADDRESS_SPACE % pageSize == 0
    requires start % pageSize == 0 && start < ADDRESS_SPACE && end % pageSize == 0 && end < ADDRESS_SPACE
    ensures Terminates(start, end, pageSize) <==> end != ADDRESS_SPACE - pageSize
  {
    if end == ADDRESS_SPACE - pageSize {
      forall rounds: nat
        ensures !Ends(start, end, pageSize, rounds)
      {
        NeverEnds(start, pageSize, rounds);
      }
    } else {
      AtMostLast(end, pageSize);
      var rounds := EndsAfter(start, end, pageSize);
      assert Ends(start, end, pageSize, rounds);
    }
  }

  lemma {:induction false} AtMostLast(page: nat, pageSize: nat)
    requires 0 < pageSize && ADDRESS_SPACE % pageSize == 0 && page % pageSize == 0 && page < ADDRESS_SPACE
    ensures page <= ADDRESS_SPACE - pageSize
  {
    NextPage(page, pageSize);
    Below(page, pageSize, ADDRESS_SPACE);
  }

  lemma {:induction false} Below(x: nat, d: nat, y: nat)
    requires d > 0 && x % d == 0 && y % d == 0 && x < y
    ensures x + d <= y
  {
    NextPage(x, d);
    Gap(x + d, y, d);
  }

  lemma {:induction false} NeverEnds(page: nat, pageSize: nat, rounds: nat)
    requires 0 < pageSize && ADDRESS_SPACE % pageSize == 0 && page % pageSize == 0 && page < ADDRESS_SPACE
    ensures !Ends(page, ADDRESS_SPACE - pageSize, pageSize, rounds)
    decreases rounds
  {
    AtMostLast(page, pageSize);
    if rounds > 0 {
      StepAligned(page, pageSize);
      NeverEnds((page + pageSize) % ADDRESS_SPACE, pageSize, rounds - 1);
    }
  }

  lemma {:induction false} StepAligned(page: nat, pageSize: nat)
    requires 0 < pageSize && ADDRESS_SPACE % pageSize == 0 && page % pageSize == 0 && page < ADDRESS_SPACE
    ensures (page + pageSize) % ADDRESS_SPACE % pageSize == 0
  {
    NextPage(page, pageSize);
    AtMostLast(page, pageSize);
    if page + pageSize == ADDRESS_SPACE {
      assert (page + pageSize) % ADDRESS_SPACE == 0;
    } else {
      assert (page + pageSize) % ADDRESS_SPACE == page + pageSize;
    }
  }

  lemma {:induction false} EndsAfter(page: nat, end: nat, pageSize: nat) returns (rounds: nat)
    requires 0 < pageSize && end + pageSize < ADDRESS_SPACE
    ensures Ends(page, end, pageSize, rounds)
    decreases if page > end then 0 else end + 1 - page
  {
    if page > end {
      rounds := 1;
    } else {
      assert (page + pageSize) % ADDRESS_SPACE == page + pageSize;
      var more := EndsAfter(page + pageSize, end, pageSize);
      rounds := more + 1;
    }
  }

  /** The number of live ranges that cover a page. */
  ghost function Count(live: seq<Range>, page: nat, pageSize: nat): (n: nat)
    requires pageSize > 0
  {
    if live == [] then 0
    else Count(live[..|live| - 1], page, pageSize) + (if Covers(live[|live| - 1], page, pageSize) then 1 else 0)
  }

  /** Live ranges without the i-th. */
  ghost function Without(live: seq<Range>, i: nat): seq<Range>
    requires i < |live|
  {
    live[..i] + live[i + 1..]
  }

  lemma {:induction false} CountWithout(live: seq<Range>, i: nat, page: nat, pageSize: nat)
    requires pageSize > 0 && i < |live|
    ensures Count(live, page, pageSize) ==
            Count(Without(live, i), page, pageSize) + (if Covers(live[i], page, pageSize) then 1 else 0)
    decreases |live|
  {
    var n := |live| - 1;
    if i == n {
      assert Without(live, i) == live[..n];
    } else {
      CountWithout(live[..n], i, page, pageSize);
      assert Without(live, i)[..n - 1] == Without(live[..n], i);
    }
  }

  function Entry(histogram: map<nat, nat>, page: nat): (n: nat)
  {
    if page in histogram then histogram[page] else 0
  }

  ghost predicate Between(page: nat, first: nat, next: nat, pageSize: nat)
    requires pageSize > 0
  {
    page % pageSize == 0 && first <= page < next
  }

  /** No entry is zero, and the locked pages are those with an entry. */
  ghost predicate Tidy(histogram: map<nat, nat>, locked: set<nat>)
  {
    locked == histogram.Keys && forall page :: page in histogram ==> histogram[page] > 0
  }

  /** The range does not end on the last page of the address space, so that the loops over its pages end. */
  predicate Stops(r: Range, pageSize: nat)
    requires pageSize > 0
  {
    r.size > 0 ==> LastPage(r, pageSize) != ADDRESS_SPACE - pageSize
  }

  /** Raises the count of every page of a range; a page without a count is locked first. */
  method LockPages(histogram0: map<nat, nat>, locked0: set<nat>, start: nat, end: nat, pageSize: nat)
    returns (histogram: map<nat, nat>, locked: set<nat>)
    requires pageSize > 0 && start % pageSize == 0 && end % pageSize == 0 && end + pageSize < ADDRESS_SPACE
    requires Tidy(histogram0, locked0)
    ensures Tidy(histogram, locked)
    ensures forall page :: Entry(histogram, page) ==
                           Entry(histogram0, page) + (if Between(page, start, end + 1, pageSize) then 1 else 0)
  {
    histogram, locked := histogram0, locked0;
    var page := start;
    while page <= end
      invariant page % pageSize == 0 && start <= page && (page == start || page <= end + pageSize) && Tidy(histogram, locked)
      invariant forall x :: Entry(histogram, x) == Entry(histogram0, x) + (if Between(x, start, page, pageSize) then 1 else 0)
      decreases if page > end then 0 else end + 1 - page
    {
      if page !in histogram {
        locked := locked + {page};
        histogram := histogram[page := 1];
      } else {
        histogram := histogram[page := histogram[page] + 1];
      }
      NextPage(page, pageSize);
      BetweenNext(start, page, pageSize);
      page := (page + pageSize) % ADDRESS_SPACE;
    }
    BetweenEnd(start, end, page, pageSize);
  }

  lemma NextPage(page: nat, pageSize: nat)
    requires pageSize > 0 && page % pageSize == 0
    ensures (page + pageSize) % pageSize == 0
  {
    var i := Quotient(page, pageSize);
    assert page + pageSize == pageSize * (i + 1);
    DivMod(0, i + 1, pageSize);
  }

  lemma {:induction false} BetweenNext(start: nat, page: nat, pageSize: nat)
    requires pageSize > 0 && page % pageSize == 0 && start <= page
    ensures forall x :: Between(x, start, page + pageSize, pageSize) <==> Between(x, start, page, pageSize) || x == page
  {
    forall x: nat | Between(x, start, page + pageSize, pageSize)
      ensures Between(x, start, page, pageSize) || x == page
    {
      Gap(x, page, pageSize);
    }
  }

  lemma {:induction false} BetweenEnd(start: nat, end: nat, page: nat, pageSize: nat)
    requires pageSize > 0 && page % pageSize == 0 && end % pageSize == 0 && end < page && (page == start || page <= end + pageSize)
    ensures forall x :: Between(x, start, page, pageSize) <==> Between(x, start, end + 1, pageSize)
  {
    if page != start {
      forall x: nat | Between(x, start, page, pageSize)
        ensures x <= end
      {
        Gap(x, end, pageSize);
      }
    }
  }

  /** Lowers the count of every page of a range; a page whose count drops to zero is unlocked. */
  method UnlockPages(histogram0: map<nat, nat>, locked0: set<nat>, start: nat, end: nat, pageSize: nat)
    returns (histogram: map<nat, nat>, locked: set<nat>)
    requires pageSize > 0 && start % pageSize == 0 && end % pageSize == 0 && end + pageSize < ADDRESS_SPACE
    requires Tidy(histogram0, locked0)
    requires forall page :: Between(page, start, end + 1, pageSize) ==> page in histogram0
    ensures Tidy(histogram, locked)
    ensures forall page :: Entry(histogram, page) ==
                           Entry(histogram0, page) - (if Between(page, start, end + 1, pageSize) then 1 else 0)
  {
    histogram, locked := histogram0, locked0;
    var page := start;
    while page <= end
      invariant page % pageSize == 0 && start <= page && (page == start || page <= end + pageSize) && Tidy(histogram, locked)
      invariant forall x :: Entry(histogram, x) == Entry(histogram0, x) - (if Between(x, start, page, pageSize) then 1 else 0)
      decreases if page > end then 0 else end + 1 - page
    {
      assert Entry(histogram, page) == Entry(histogram0, page);
      assert page in histogram by {
        assert Between(page, start, end + 1, pageSize);
      }
      histogram := histogram[page := histogram[page] - 1];
      if histogram[page] == 0 {
        locked := locked - {page};
        histogram := histogram - {page};
      }
      NextPage(page, pageSize);
      BetweenNext(start, page, pageSize);
      page := (page + pageSize) % ADDRESS_SPACE;
    }
    BetweenEnd(start, end, page, pageSize);
  }

  class LockedPageManager {
    const pageSize: nat
    var histogram: map<nat, nat>
    var locked: set<nat>              // pages locked in the operating system
    ghost var live: seq<Range>        // ranges locked and not yet unlocked

    /** A page's count is the number of live ranges covering it, and the locked pages are those with a count. */
    ghost predicate Valid()
      reads this
    {
      && 0 < pageSize && ADDRESS_SPACE % pageSize == 0 && Tidy(histogram, locked)
      && forall page :: Entry(histogram, page) == Count(live, page, pageSize)
    }

    constructor (page_size: nat)
      requires 0 < page_size && ADDRESS_SPACE % page_size == 0
      ensures Valid() && pageSize == page_size && live == []
    {
      pageSize, histogram, locked, live := page_size, map[], {}, [];
    }

    /** The pages locked in the operating system are exactly those that some live range covers. */
    lemma {:induction false} LockedIffCovered(page: nat)
      requires Valid()
      ensures page in locked <==> exists i :: 0 <= i < |live| && Covers(live[i], page, pageSize)
    {
      assert Entry(histogram, page) == Count(live, page, pageSize);
      CountPositive(live, page, pageSize);
    }

    /** If no live range wraps around, these are the pages that some live range touches. */
    lemma {:induction false} LockedIffTouched(page: nat)
      requires Valid() && forall i :: 0 <= i < |live| ==> live[i].p + live[i].size <= ADDRESS_SPACE
      ensures page in locked <==> exists i :: 0 <= i < |live| && Touches(live[i], page, pageSize)
    {
      LockedIffCovered(page);
      forall i | 0 <= i < |live|
        ensures Covers(live[i], page, pageSize) <==> Touches(live[i], page, pageSize)
      {
        CoversTouched(live[i], page, pageSize);
      }
    }

    method LockRange(p: Word, size: Word)
      requires Valid() && Stops(Range(p, size), pageSize)
      modifies this
      ensures Valid() && live == old(live) + [Range(p, size)]
    {
      if size > 0 {
        var startPage, endPage := PageOf(p, pageSize), PageOf((p + size - 1) % ADDRESS_SPACE, pageSize);
        Below(endPage, pageSize, ADDRESS_SPACE);
        histogram, locked := LockPages(histogram, locked, startPage, endPage, pageSize);
      }
      live := live + [Range(p, size)];
      Locked(old(histogram), histogram, old(live), Range(p, size), pageSize);
    }

    method UnlockRange(p: Word, size: Word, ghost i: nat)
      requires Valid() && Stops(Range(p, size), pageSize) && i < |live| && live[i] == Range(p, size)
      modifies this
      ensures Valid() && live == Without(old(live), i)
    {
      if size > 0 {
        var startPage, endPage := PageOf(p, pageSize), PageOf((p + size - 1) % ADDRESS_SPACE, pageSize);
        Below(endPage, pageSize, ADDRESS_SPACE);
        HasPages(histogram, live, i, pageSize);
        histogram, locked := UnlockPages(histogram, locked, startPage, endPage, pageSize);
      }
      live := Without(live, i);
      Unlocked(old(histogram), histogram, old(live), i, pageSize);
    }
  }

  lemma {:induction false} CountPositive(live: seq<Range>, page: nat, pageSize: nat)
    requires pageSize > 0
    ensures Count(live, page, pageSize) > 0 <==> exists i :: 0 <= i < |live| && Covers(live[i], page, pageSize)
  {
    if live != [] {
      var n := |live| - 1;
      CountPositive(live[..n], page, pageSize);
      assert forall i :: 0 <= i < n ==> live[..n][i] == live[i];
    }
  }

  /** A range's pages are those from its first to its last, so all counts stay right. */
  lemma {:induction false} Locked(before: map<nat, nat>, after: map<nat, nat>, live: seq<Range>, r: Range, pageSize: nat)
    requires pageSize > 0 && forall page :: Entry(before, page) == Count(live, page, pageSize)
    requires if r.size == 0 then after == before
             else forall page :: Entry(after, page) == Entry(before, page) +
                    (if Between(page, PageOf(r.p, pageSize), LastPage(r, pageSize) + 1, pageSize) then 1 else 0)
    ensures forall page :: Entry(after, page) == Count(live + [r], page, pageSize)
  {
    forall page: nat
      ensures Entry(after, page) == Count(live + [r], page, pageSize)
    {
      assert (live + [r])[..|live|] == live;
    }
  }

  lemma {:induction false} HasPages(histogram: map<nat, nat>, live: seq<Range>, i: nat, pageSize: nat)
    requires pageSize > 0 && i < |live| && live[i].size > 0
    requires forall page :: Entry(histogram, page) == Count(live, page, pageSize)
    ensures var r := live[i];
            forall page ::
              Between(page, PageOf(r.p, pageSize), LastPage(r, pageSize) + 1, pageSize) ==> page in histogram
  {
    var r := live[i];
    forall page: nat | Between(page, PageOf(r.p, pageSize), LastPage(r, pageSize) + 1, pageSize)
      ensures page in histogram
    {
      CountPositive(live, page, pageSize);
    }
  }

  lemma {:induction false} Unlocked(before: map<nat, nat>, after: map<nat, nat>, live: seq<Range>, i: nat, pageSize: nat)
    requires pageSize > 0 && i < |live| && forall page :: Entry(before, page) == Count(live, page, pageSize)
    requires var r := live[i];
             if r.size == 0 then after == before
             else forall page :: Entry(after, page) == Entry(before, page) -
                    (if Between(page, PageOf(r.p, pageSize), LastPage(r, pageSize) + 1, pageSize) then 1 else 0)
    ensures forall page :: Entry(after, page) == Count(Without(live, i), page, pageSize)
  {
    forall page: nat
      ensures Entry(after, page) == Count(Without(live, i), page, pageSize)
    {
      CountWithout(live, i, page, pageSize);
    }
  }

  /** Locking a range, or unlocking the i-th of those still held. */
  datatype Op = Lock(r: Range) | Unlock(i: nat)

  /** Any sequence of locks, and unlocks of live ranges, keeps the counts and the locked pages right. */
  method Run(manager: LockedPageManager, ops: seq<Op>)
    requires manager.Valid() && manager.live == []
    modifies manager
    ensures manager.Valid()
  {
    var held: seq<Range> := [];
    for n := 0 to |ops|
      invariant manager.Valid() && manager.live == held
      invariant forall j :: 0 <= j < |held| ==> Stops(held[j], manager.pageSize)
    {
      match ops[n] {
        case Lock(r) =>
          if Stops(r, manager.pageSize) {
            manager.LockRange(r.p, r.size);
            held := held + [r];
          }
        case Unlock(i) =>
          if i < |held| {
            manager.UnlockRange(held[i].p, held[i].size, i);
            held := held[..i] + held[i + 1..];
          }
      }
    }
  }
}
