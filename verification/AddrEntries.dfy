/**
 What happens to a single entry of the address manager: when it is bad enough to be dropped, what
 hearing of it again changes, and what it passes on.
 */
module AddrEntries {
  import opened AddrTables
  import opened AddrManager

  const DAY := 86400

  /** An entry without failures is dropped for its time alone: not seen, from the future, or over thirty days old. */
  predicate OutOfDate(nTime: nat, now: int)
  {
    nTime == 0 || nTime > now + 600 || nTime < now - 30 * DAY
  }

  /**
   Dropping: never within a minute of an attempt; else if out of date, after three attempts without
   any success, or after ten attempts since a success over a week ago.
   */
  lemma TerribleIff(info: AddrInfo, now: int)
    ensures IsTerrible(info, now) <==>
            && !(info.nLastTry != 0 && now - info.nLastTry <= 60)
            && (|| OutOfDate(info.nTime, now) || (info.nLastSuccess == 0 && info.nAttempts >= 3)
                || (info.nLastSuccess < now - 7 * DAY && info.nAttempts >= 10))
  {
  }

  /** A success keeps an entry for thirty days, whatever it was before. */
  lemma SuccessLasts(info: AddrInfo, t: int, now: int)
    requires 0 < t < 0x1_0000_0000 && t <= now
    ensures IsTerrible(Succeeded(info, t), now) <==> now > t + 30 * DAY
    ensures SameEnds(info, Succeeded(info, t)) && SameSlots(info, Succeeded(info, t))
  {
  }

  /** An address heard of for the first time is dropped for its time alone. */
  lemma FreshLasts(addr: Address, source: NetAddr, nTimePenalty: int, now: int)
    requires addr.nTime < 0x1_0000_0000 && 0 <= nTimePenalty
    ensures var info := FreshEntry(addr, source, nTimePenalty);
            && info.service == addr.service && info.nServices == addr.nServices && info.source == source
            && info.nTime == (if addr.nTime > nTimePenalty then addr.nTime - nTimePenalty else 0)
            && info.nLastSuccess == info.nLastTry == info.nAttempts == 0 && (IsTerrible(info, now) <==> OutOfDate(info.nTime, now))
  {
  }

  /** News are an hour newer than what is known, or a day for an address that was not seen within the last day. */
  predicate IsNews(known: nat, heard: nat, nTimePenalty: int, now: int)
  {
    heard != 0 && (known == 0 || heard - nTimePenalty - known > if now - heard < DAY then 3600 else DAY)
  }

  /** Hearing again: services add up, the time moves on with news and never back, and the record of attempts stays. */
  lemma HeardAgain(info: AddrInfo, addr: Address, nTimePenalty: int, now: int, defaultPort: nat)
    requires addr.nTime < 0x1_0000_0000 && 0 <= nTimePenalty
    ensures var r := Refreshed(info, addr, nTimePenalty, now, defaultPort);
            && r.nServices == info.nServices + addr.nServices && r.source == info.source
            && r.nLastSuccess == info.nLastSuccess && r.nLastTry == info.nLastTry && r.nAttempts == info.nAttempts
            && r.nTime == (if !IsNews(info.nTime, addr.nTime, nTimePenalty, now) then info.nTime
                           else if addr.nTime > nTimePenalty then addr.nTime - nTimePenalty else 0)
            && r.nTime >= info.nTime
  {
  }

  /** Another slot: on news of an entry that is not tried and has fewer than four. */
  lemma GainsIff(info: AddrInfo, addr: Address)
    ensures MayGain(info, addr) <==>
            addr.nTime > 0 && !info.fInTried && info.nRefCount < 4 && (info.nTime > 0 ==> info.nTime < addr.nTime)
  {
  }

  /** An address handed out to another node gives an entry there with the same service, services and time. */
  lemma PassedOn(info: AddrInfo, source: NetAddr)
    requires info.nTime < 0x1_0000_0000
    ensures var r := FreshEntry(AddressOf(info), source, 0);
            r.service == info.service && r.nServices == info.nServices && r.nTime == info.nTime
  {
  }
}
