/**
 Numbering the transactions of the main chain: the search for the block of a transaction
 number, and the number of a name's latest registration.
 */
module TxNumbers {
  import opened Wrappers
  import opened UsernameIndex
  import opened NameChain

  /** The number of transactions up to and including a height. */
  function ChainTx(chain: seq<Block>, h: int): (n: nat)
    requires h < |chain|
    decreases h + 1
  {
    if h < 0 then 0 else ChainTx(chain, h - 1) + |chain[h].vtx|
  }

  /** The block at height h holds the transaction with the given number. */
  ghost predicate Holds(chain: seq<Block>, h: nat, txNum: nat)
  {
    h < |chain| && ChainTx(chain, h - 1) <= txNum < ChainTx(chain, h)
  }

  /** All transactions of the chain in order. */
  ghost function AllTxs(chain: seq<Block>): (txs: seq<Tx>)
  {
    if chain == [] then [] else AllTxs(chain[..|chain| - 1]) + chain[|chain| - 1].vtx
  }

  lemma {:induction false} ChainTxFront(chain: seq<Block>, n: nat, h: int)
    requires h < n <= |chain|
    ensures ChainTx(chain[..n], h) == ChainTx(chain, h)
    decreases h + 1
  {
    if h >= 0 {
      ChainTxFront(chain, n, h - 1);
    }
  }

  /** Numbers count all transactions from the first block on. */
  lemma {:induction false} NumbersInOrder(chain: seq<Block>, h: nat, txNum: nat)
    requires Holds(chain, h, txNum)
    ensures |AllTxs(chain)| == ChainTx(chain, |chain| - 1) && txNum < |AllTxs(chain)|
    ensures AllTxs(chain)[txNum] == chain[h].vtx[txNum - ChainTx(chain, h - 1)]
    decreases |chain|
  {
    var front := chain[..|chain| - 1];
    AllTxsCount(chain);
    AllTxsCount(front);
    ChainTxFront(chain, |chain| - 1, |chain| - 2);
    if h < |front| {
      ChainTxFront(chain, |front|, h);
      ChainTxFront(chain, |front|, h - 1);
      NumbersInOrder(front, h, txNum);
    }
    ChainTxGrows(chain, h, |chain| - 1);
  }

  lemma {:induction false} AllTxsCount(chain: seq<Block>)
    ensures |AllTxs(chain)| == ChainTx(chain, |chain| - 1)
    decreases |chain|
  {
    if chain != [] {
      AllTxsCount(chain[..|chain| - 1]);
      ChainTxFront(chain, |chain| - 1, |chain| - 2);
    }
  }

  /** The transaction with the given number is in the block at height h and carries the name. */
  ghost predicate NamedAt(chain: seq<Block>, h: nat, txNum: nat, name: string)
  {
    Holds(chain, h, txNum) && chain[h].vtx[txNum - ChainTx(chain, h - 1)].userName == name
  }

  ghost predicate Named(chain: seq<Block>, txNum: nat, name: string)
  {
    exists h: nat :: NamedAt(chain, h, txNum, name)
  }

  lemma {:induction false} ChainTxGrows(chain: seq<Block>, g: int, h: int)
    requires g <= h < |chain|
    ensures ChainTx(chain, g) <= ChainTx(chain, h)
    decreases h - g
  {
    if g < h {
      ChainTxGrows(chain, g, h - 1);
    }
  }

  /** Exactly one block holds each number below the total. */
  lemma {:induction false} HolderUnique(chain: seq<Block>, g: nat, h: nat, txNum: nat)
    requires Holds(chain, g, txNum) && Holds(chain, h, txNum)
    ensures g == h
  {
    if g < h {
      ChainTxGrows(chain, g, h - 1);
    } else if h < g {
      ChainTxGrows(chain, h, g - 1);
    }
  }

  lemma {:induction false} HolderExists(chain: seq<Block>, h: int, txNum: nat) returns (t: nat)
    requires h < |chain| && txNum < ChainTx(chain, h)
    ensures t <= h && Holds(chain, t, txNum)
    decreases h + 1
  {
    if txNum < ChainTx(chain, h - 1) {
      t := HolderExists(chain, h - 1, txNum);
    } else {
      t := h;
    }
  }

  /** Where a probed block stands to the holder of a number. */
  lemma {:induction false} Probe(chain: seq<Block>, mid: nat, t: nat, txNum: nat)
    requires mid < |chain| && Holds(chain, t, txNum)
    ensures txNum < ChainTx(chain, mid - 1) <==> t < mid
    ensures txNum >= ChainTx(chain, mid) <==> t > mid
  {
    if t < mid {
      ChainTxGrows(chain, t, mid - 1);
      ChainTxGrows(chain, t, mid);
    } else if mid < t {
      ChainTxGrows(chain, mid, t - 1);
      ChainTxGrows(chain, mid - 1, t - 1);
    }
  }

  /** The search, cut off after a number of rounds; None means that it has not finished. */
  ghost function Search(chain: seq<Block>, txNum: nat, begin: nat, end: nat, rounds: nat): Option<nat>
    requires begin < |chain| && end < |chain|
    decreases rounds
  {
    if rounds == 0 then None
    else var mid := (begin + end) / 2;
         if txNum < ChainTx(chain, mid - 1) then Search(chain, txNum, begin, mid, rounds - 1)
         else if txNum < ChainTx(chain, mid) then Some(mid)
         else Search(chain, txNum, mid, end, rounds - 1)
  }

  ghost predicate EndsIn(chain: seq<Block>, txNum: nat, rounds: nat)
    requires |chain| > 0
  {
    Search(chain, txNum, 0, |chain| - 1, rounds).Some?
  }

  lemma {:induction false} SearchFinds(chain: seq<Block>, txNum: nat, begin: nat, end: nat, t: nat, rounds: nat)
    requires end < |chain| && Holds(chain, t, txNum) && begin <= t && (t < end || begin == t == end) && rounds > end - begin
    ensures Search(chain, txNum, begin, end, rounds) == Some(t)
    decreases rounds
  {
    var mid := (begin + end) / 2;
    Probe(chain, mid, t, txNum);
    if t < mid {
      SearchFinds(chain, txNum, begin, mid, t, rounds - 1);
    } else if t > mid {
      SearchFinds(chain, txNum, mid, end, t, rounds - 1);
    }
  }

  lemma {:induction false} SearchLoops(chain: seq<Block>, txNum: nat, begin: nat, rounds: nat)
    requires begin < |chain| - 1 && Holds(chain, |chain| - 1, txNum)
    ensures Search(chain, txNum, begin, |chain| - 1, rounds).None?
    decreases rounds
  {
    if rounds > 0 {
      var mid := (begin + |chain| - 1) / 2;
      Probe(chain, mid, |chain| - 1, txNum);
      SearchLoops(chain, txNum, mid, rounds - 1);
    }
  }

  /** The search ends exactly for numbers before the tip block, or when the tip is the genesis block. */
  lemma {:induction false} SearchEndsIff(chain: seq<Block>, txNum: nat)
    requires |chain| > 0 && txNum < ChainTx(chain, |chain| - 1)
    ensures (exists rounds: nat :: EndsIn(chain, txNum, rounds)) <==>
            txNum < ChainTx(chain, |chain| - 2) || |chain| == 1
  {
    var t := HolderExists(chain, |chain| - 1, txNum);
    if txNum < ChainTx(chain, |chain| - 2) || |chain| == 1 {
      Probe(chain, |chain| - 1, t, txNum);
      SearchFinds(chain, txNum, 0, |chain| - 1, t, |chain| + 1);
      assert EndsIn(chain, txNum, |chain| + 1);
    } else {
      assert Holds(chain, |chain| - 1, txNum);
      forall rounds: nat
        ensures !EndsIn(chain, txNum, rounds)
      {
        SearchLoops(chain, txNum, 0, rounds);
      }
    }
  }

  /** The name of a numbered transaction. */
  method TxNumToUsername(chain: seq<Block>, txNum: nat) returns (r: Option<string>)
    requires |chain| > 0
    requires txNum >= ChainTx(chain, |chain| - 1) || txNum < ChainTx(chain, |chain| - 2) || |chain| == 1
    ensures r.None? <==> txNum >= ChainTx(chain, |chain| - 1)
    ensures r.Some? ==> Named(chain, txNum, r.value)
  {
    if txNum >= ChainTx(chain, |chain| - 1) {
      return None;
    }
    var begin, end := 0, |chain| - 1;
    ghost var t := HolderExists(chain, |chain| - 1, txNum);
    Probe(chain, |chain| - 1, t, txNum);
    while true
      invariant 0 <= begin <= t <= end < |chain| && (t < end || begin == end)
      decreases end - begin
    {
      var mid := (begin + end) / 2;
      Probe(chain, mid, t, txNum);
      if txNum < ChainTx(chain, mid - 1) {
        end := mid;
      } else if txNum < ChainTx(chain, mid) {
        var name := chain[mid].vtx[txNum - ChainTx(chain, mid - 1)].userName;
        assert NamedAt(chain, mid, txNum, name);
        return Some(name);
      } else {
        begin := mid;
      }
    }
  }

  /** No transaction of the block before the given place carries the name. */
  predicate FirstOf(b: Block, place: int, name: string)
  {
    forall i :: 0 <= i < place && i < |b.vtx| ==> b.vtx[i].userName != name
  }

  /** The number of the first transaction with a name in the block of its latest registration. */
  method UsernameToTxNum(node: NameIndex, username: string) returns (r: Option<nat>)
    requires node.Valid()
    ensures var last := Scan(node.chain, username, |node.chain| - 1);
            if last.None? then r.None?
            else
              && r.Some? && NamedAt(node.chain, last.value, r.value, username)
              && FirstOf(node.chain[last.value], r.value - ChainTx(node.chain, last.value - 1), username)
  {
    var found := node.GetTransaction(username, -1);
    if found.None? {
      return None;
    }
    var block := found.value.block;
    var txIdx := 0;
    while txIdx < |block.vtx| && block.vtx[txIdx].userName != username
      invariant 0 <= txIdx <= |block.vtx| && forall i :: 0 <= i < txIdx ==> block.vtx[i].userName != username
    {
      txIdx := txIdx + 1;
    }
    r := Some(ChainTx(node.chain, block.nHeight) - |block.vtx| + txIdx);
  }

  /** Going from a name to its number and back gives the name, for names last registered below the tip. */
  method NameRoundTrip(node: NameIndex, username: string) returns (txNum: Option<nat>, name: Option<string>)
    requires node.Valid()
    requires var last := Scan(node.chain, username, |node.chain| - 1); last.Some? ==> last.value < |node.chain| - 1
    ensures txNum.Some? <==> Scan(node.chain, username, |node.chain| - 1).Some?
    ensures txNum.Some? ==> name == Some(username)
  {
    name := None;
    txNum := UsernameToTxNum(node, username);
    if txNum.Some? {
      BelowTip(node.chain, Scan(node.chain, username, |node.chain| - 1).value, txNum.value, username);
      name := TxNumToUsername(node.chain, txNum.value);
    }
  }

  lemma {:induction false} BelowTip(chain: seq<Block>, h: nat, txNum: nat, name: string)
    requires h < |chain| - 1 && NamedAt(chain, h, txNum, name)
    ensures txNum < ChainTx(chain, |chain| - 2) && txNum < ChainTx(chain, |chain| - 1)
    ensures forall other :: Named(chain, txNum, other) ==> other == name
  {
    ChainTxGrows(chain, h, |chain| - 2);
    ChainTxGrows(chain, h, |chain| - 1);
    forall other | Named(chain, txNum, other)
      ensures other == name
    {
      var g: nat :| NamedAt(chain, g, txNum, other);
      HolderUnique(chain, g, h, txNum);
    }
  }
}
