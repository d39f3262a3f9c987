# Verified models of freech-core

Dafny models of six parts of freech-core, a C++ node for a block chain of username
registrations, with proofs about every input, every sequence of operations or every reachable
state:

- **Merkle trees** (`Hashing`, `Merkle`, `MerkleRows`, `BlockMerkle`, `PartialMerkle`, `PartialTree`,
  `PartialAccept`): the level-by-level tree of a block, branches for single transactions, and the partial
  trees of BIP 37 with their packing into bytes and what their decoder refuses.
- **Address manager** (`AddrTables`, `AddrManager`, `AddrEntries`, `AddrHomes`, `AddrRuns`, `AddrCheck`,
  `AddrSerial`): five redundant tables and two counters that change together, the entries in them, the
  self-check over them, and the peers file.
- **Best chain** (`BlockTree`, `ChainRules`, `ChainChoice`, `ChainRuns`, `BestChain`, `ChainCases`,
  `ChainWork`): the tree of blocks and the work that adds up along it, fork finding, the by-height
  vector, candidates in order of work, failure marks, the switch to voted soft checkpoints, and whole
  runs of arrivals and votes.
- **Username index** (`UsernameIndex`, `NameRuns`, `NameSwitch`, `NameVerdicts`, `NameKeys`, `NameChain`,
  `NameHistories`): the index that leads from a name to its latest registration and, by height,
  to superseded ones; extending the tip, and switching it to another branch, which is judged
  against the branch that is left. `ChainNames` joins the index to the choice of the tip.
- **Numbers and searches** (`Digits`, `Base58`, `Compact`, `Retarget`, `Locator`, `TxNumbers`).
- **Page locks** (`PageLocks`): stacking memory locks.

`Wrappers` holds the `Option` that they share.

Code that changes objects in place is modelled by classes, loops by methods with loops; both are
proved against specification functions and predicates. `dafny verify dfyconfig.toml` checks the
whole project.

## How the outside world is modelled

- Random numbers are arbitrary values in range, or sequences of such draws where the result
  depends on them. Bucket functions, "is routable", the hash of two
  digests, transaction hashes and key recovery are function parameters.
- In `BestChain` a `World` says how reading, connecting and disconnecting each block and writing
  to disk turn out, so that a switch succeeds under an exact condition on it; after an aborting
  disk error nothing is claimed, as the node shuts down.
- The clock is a parameter. A position in the block files is a block value with the place of a
  transaction in it. Index keys are pairs of a name and a height instead of hashes of such pairs.
- Integers are unbounded except where a width shows: the 32-bit time fields of addresses, the
  32-bit compact form, and the address space that page addresses wrap around in.
- Collision freedom is assumed only of the pairs that a decoder and the true tree actually hash
  (`NoCollision`).

## Where the code differs from its documentation

- `src/main.h:440` promises at most 2N-1 flag bits for N hashes. A node with a single child adds
  one more; `PartialTreeSize` has the exact condition, `DocumentedBitBoundFails` an instance. The
  bound on the whole size (`src/main.h:427`) holds all the same (`SizeGuarantee`).
- A failing extraction returns zero, so a block whose Merkle root is zero cannot be told from a
  failure. Authenticity holds when the root is not zero (`MatchesAreAuthentic`); for every block
  whose root is zero it fails (`ZeroRootAdmitsAny`), also without colliding pairs
  (`ZeroRootIsNotAuthentic`).
- `SelectTried` returns the position from which the least recently successful entry was drawn, not
  the one where it is afterwards. They are the same exactly if that draw left the entry in place;
  `PicksMoreRecent` has a draw that picks a more recent entry.
- A tried entry whose default port gives way to another one stays in the bucket of its old service
  (`LeavesHome`); until then saving and loading loses no address (`RunAndReload`).
- `Select_` recounts `nNew` as the sum of bucket sizes, which counts an address once per bucket.
  `RecountNew` states when that is the right count, `CountedTwice` shows when not.
- The comparison of two index positions in `ConnectBlock` is inherited from the block position,
  so two transactions of one block compare equal.
- `SetBestChain` skips failed blocks and goes on. It then records a by-height vector that is not
  the path to the new tip, and leaves the coin view behind; `ChainRules.NewByHeight` has the exact
  condition. `ConnectBestBlock` never asks for that, but a soft checkpoint can
  (`CheckpointAboveFailed`, and `DerailedRun` for a whole run that ends so).
- A soft checkpoint becomes the tip although it has less work (`LighterCheckpoint`); it never makes
  the tip lower (`RunKeeps`).
- `ConnectBestBlock` goes up to the heaviest candidate through its ancestors, and `SetBestChain`
  refuses a chain that connects fewer blocks than it disconnects. So the heaviest candidate is taken
  exactly if no ancestor of it that already has more work than the tip is lower than the tip and its
  blocks connect (`HeavierRefused` has trees on which it is refused).
- While the tip switches branches, names are checked against the branch that is left. A name
  registered twice by the blocks of one switch is not checked (`TakeoverAccepted`), and a name of the
  old branch shuts out its first registration on the new one (`NewcomerShutOut`); `VerdictIff` says
  that these are the only wrong verdicts. Histories on the new branch are legitimate exactly if the
  connected blocks are clean among themselves (`SwitchLegitimateIff`). The signer of a spam message is
  looked up in the same way (`SpamVerdictIff`, `SignerLeftBehind`).
- A switch that is refused part-way leaves its index writes behind, so that names of the branch that
  stays can be lost or lead to an older key (`StoppedLinkedIff`, `ReplacementForgotten`).
- Looking a name up can run forever after two blocks of one height register it and the first one
  is connected again (`ReconnectLoops`). `FaithfulIffLinked` says for which indexes all lookups
  are right, and `ConnectFaithfulIff` which blocks keep them right.
- The search for a transaction number never ends for numbers in the tip block
  (`SearchEndsIff`).
- The loops over pages end exactly if the range does not end on the last page of the address space
  (`LoopEndsIff`). A range that wraps around locks no page, unless it comes back to the page where
  it starts (`CoversWrapped`).
- The first block of the main network carries other bits than `GetNextWorkRequired` would ask of it;
  nothing checks them (`MainGenesisAccepted`).

## Model

| member | source | states |
|---|---|---|
| `Merkle.WidthIsShift` | src/main.h:459-461 | The shift formula for the number of nodes of a level gives the same widths as halving level by level, rounding up. |
| `MerkleRows.RootByRows` | src/core.cpp:209-226 | The recursive root of every non-empty list is what hashing neighbours row by row gives, with the last of an odd row hashed with itself. |
| `MerkleRows.OddRow` | src/core.cpp:213-224 | An odd list of at least three has the same root with its last one repeated. |
| `Merkle.BranchReachesAncestor` | src/core.cpp:228-257 | Folding the siblings of any node, as many levels as wanted, gives the hash of its ancestor on that level, duplicated last nodes included. |
| `Merkle.BranchProvesLeaf` | src/core.cpp:228-257 | The branch of every transaction folds to the Merkle root. |
| `Merkle.FoldIsAuthentic` | src/core.cpp:244-257 | A value that folds to a true ancestor is the true node, unless a pair hashed on the way collides. |
| `Merkle.BranchIsAuthentic` | src/core.cpp:244-257 | A value that a branch of full height proves at an index is the transaction id at that index, unless a pair collides. |
| `BlockMerkle.Block.BuildMerkleTree` | src/core.cpp:209-226 | The flat array ends up holding the recursive node hash at every slot of every level and nothing else; the result is the root, or zero for no transactions. |
| `BlockMerkle.Block.AppendParents` | src/core.cpp:215-224 | One pass over a stored level appends exactly the node hashes of the next level. |
| `BlockMerkle.Block.GetMerkleBranch` | src/core.cpp:228-242 | Read from the flat array, built on demand, the result is the sibling of each node on the way up; an index beyond the transactions is clamped to the last node of each level. |
| `BlockMerkle.Block.ReadBranch` | src/core.cpp:232-241 | From a complete flat tree the loop reads the sibling on every level below the root. |
| `BlockMerkle.Block.CheckMerkleBranch` | src/core.cpp:244-257 | The loop folds the branch in the order given by the bits of the index, negative ones included; index -1 verifies nothing. |
| `BlockMerkle.Block.ProveTransaction` | src/core.cpp:209-257 | Checking the branch of any transaction of a block gives the block's Merkle root. |
| `PartialMerkle.ExtractEncoded` | src/main.cpp:1983-2029 | Wherever the encoding of a node sits in bits and hashes, the decoder reads it back: node hash, selected txids in order, and cursors at the end of the encoding. |
| `PartialMerkle.HashesWithinLeaves` | src/main.h:424-441 | An encoding stores between one hash and one per leaf, and at least one bit per hash. |
| `PartialMerkle.HashesByMatches` | src/main.h:424-441 | It stores at most one hash plus one per match and level. |
| `PartialMerkle.BitCount` | src/main.h:424-441 | The number of flag bits is exactly 2N-1 plus the number of nodes with a single child above a match. |
| `PartialTree.PartialTreeSize` | src/main.h:424-441 | For every block and selection: at most n and at most 1+m*H hashes, between N and 2N-1+H bits, and at most 2N-1 bits if and only if no level has a single child above a match. |
| `PartialTree.DocumentedBitBoundFails` | src/main.h:440 | Five transactions with only the last selected need more than 2N-1 bits. |
| `PartialTree.SizeGuarantee` | src/main.h:424-441 | For every block that can be decoded and every selection the serialized tree takes at most 10 + ceil(32.25 N) bytes, although it may take more than 2N-1 bits. |
| `PartialTree.PartialTreeRoundTrip` | src/main.cpp:1983-2078 | Extraction from an honest tree, with padding bits up to a whole byte, gives the Merkle root and exactly the selected txids in order. |
| `PartialTree.SubtreeIsAuthentic` | src/main.cpp:2001-2029 | From arbitrary bits and hashes: a subtree that decodes to the true hash yields only true txids, at increasing positions. |
| `PartialTree.MatchesAreAuthentic` | src/main.cpp:2001-2078 | If extraction with the true transaction count gives the true, non-zero root and no pair collides, every match is a txid of the block, in block order. |
| `PartialTree.ZeroRootAdmitsAny` | src/main.cpp:2047-2078 | For every block whose root is zero and every value, some bits make extraction return the root with that value as the only match. |
| `PartialTree.ZeroRootIsNotAuthentic` | src/main.cpp:2047-2078 | A block of two transactions with root zero where a value outside the block is extracted although no pair collides. |
| `PartialTree.PartialMerkleTree.FromBlock` | src/main.cpp:2031-2043 | The built tree is the encoding of the whole block. |
| `PartialTree.PartialMerkleTree.CalcHeight` | src/main.cpp:2036-2039 | The loop finds the least height whose level has at most one node. |
| `PartialTree.PartialMerkleTree.ParentOfMatch` | src/main.cpp:1984-1987 | The scan over shifted positions tells whether some leaf below the node is selected. |
| `PartialTree.PartialMerkleTree.TraverseAndBuild` | src/main.cpp:1983-1999 | The recursion appends the encoding of the node to the bits and hashes already there. |
| `PartialTree.PartialMerkleTree.TraverseAndExtract` | src/main.cpp:2001-2029 | The recursion advances both cursors, appends matches and sets the failure flag as the decoding of that node says. |
| `PartialTree.PartialMerkleTree.ExtractMatches` | src/main.cpp:2047-2078 | All refusals and the result: root or zero, and the matches collected up to that point; what is refused is said by the rows that follow. |
| `PartialAccept.AcceptedSizes` | src/main.cpp:2049-2061 | Whatever is accepted is for 1 to 833 transactions, with at most one hash for each, at least one flag bit for each hash, and not marked bad before. |
| `PartialAccept.LeftoverHashes` | src/main.cpp:2074-2076 | An accepted tree with any further hashes is refused. |
| `PartialAccept.LeftoverBits` | src/main.cpp:2071-2073 | An accepted tree with further flag bits gives the same result within the last byte, and is refused beyond it. |
| `PartialAccept.OneLength` | src/main.cpp:2007-2029 | For given flag bits at most one number of hashes is accepted. |
| `PartialTree.LowestFirst` | src/main.h:440 | Flag bits are packed with the lowest bit of a byte first. |
| `PartialTree.PartialMerkleTree.Serialize` | src/main.h:476-493 | Just enough bytes, whose unpacking is the bits followed by zeros. |
| `PartialTree.PartialMerkleTree.Unserialize` | src/main.h:476-493 | Eight bits per byte, lowest first; the failure flag is cleared. |
| `PartialTree.SendAndExtract` | src/main.cpp:1983-2078 | Building, packing, unpacking and extracting returns exactly the Merkle root and the selected txids in order, for every block within the size limit and every selection. |
| `AddrManager.Manager.Find` | src/addrman.cpp:81-92 | Finds the entry of a host exactly when there is one. |
| `AddrManager.Manager.Create` | src/addrman.cpp:94-104 | A fresh id with a new entry, entered in all three tables. |
| `AddrManager.Manager.SwapRandom` | src/addrman.cpp:106-124 | Two places of vRandom change hands; places and entries stay inverse, and nothing else changes. |
| `AddrManager.ShuffleAndPick` | src/addrman.cpp:126-148 | The bucket is shuffled as the draws say; slot k then holds the first least recently successful one of the inspected entries, and the position returned is k plus the draw at k. |
| `AddrManager.PicksMoreRecent` | src/addrman.cpp:126-148 | In every full bucket whose second entry is the least recent of the inspected ones, with the first two changing places and no other: the position returned is the second, which now holds the more recent entry. |
| `AddrManager.Manager.SelectTried` | src/addrman.cpp:126-148 | As above on the bucket itself, keeping the tried table consistent; the returned slot holds the least recent entry if and only if the draw at its slot was zero. |
| `AddrManager.Manager.ShrinkNew` | src/addrman.cpp:150-202 | Exactly one entry leaves the bucket: the first terrible one, or if none is terrible the oldest of up to four drawn ones; it is deleted with its last reference. |
| `AddrManager.Manager.MakeTried` | src/addrman.cpp:204-260 | The entry leaves all new buckets and goes to the tried bucket of its service, the only one that changes: to its end or, if it is full, to the position that the shuffle picks, whose entry becomes new again with one reference, in its own new bucket if that has room and else in the one that the new entry came from. The sum of the counters is conserved. |
| `AddrManager.Manager.Good_` | src/addrman.cpp:262-311 | Keeps the whole invariant; only a known service changes, it is refreshed and, unless tried already, moves to its tried bucket as above. |
| `AddrManager.Manager.Add_` | src/addrman.cpp:313-376 | Keeps the whole invariant; the result tells whether a routable unknown address was added, and one that is not routable changes nothing. An unknown one has its first entry and slot; a known one is refreshed and gains a slot exactly on news, when it is not tried, is below four references and a draw from two to the power of them is zero. Besides it at most one entry changes: the one that a full bucket gives up, its first terrible or else the oldest of up to four, which loses a reference. |
| `AddrEntries.TerribleIff` | src/addrman.cpp:38-57 | Exactly when an entry may be dropped: not within a minute of an attempt, and else if its time is out of date, after three attempts without success, or after ten since a success over a week ago. |
| `AddrEntries.SuccessLasts` | src/addrman.cpp:262-285 | After a success an entry is not dropped for exactly thirty days, whatever it was before. |
| `AddrEntries.FreshLasts` | src/addrman.cpp:358-365 | A first entry has the service, services, source and reduced time it was heard of with, and is dropped for its time alone. |
| `AddrEntries.HeardAgain` | src/addrman.cpp:324-341 | Hearing of a known address adds services, moves its time on exactly with news of an hour or a day, never back, and leaves its record of attempts. |
| `AddrEntries.GainsIff` | src/addrman.cpp:343-350 | An entry may gain a slot exactly on news, when it is not tried and has fewer than four. |
| `AddrEntries.PassedOn` | src/addrman.cpp:519-533 | An address handed out gives another node an entry with the same service, services and time. |
| `AddrManager.Manager.Attempt_` | src/addrman.cpp:378-395 | Keeps the whole invariant; counts the attempt of a known service only. |
| `AddrManager.Manager.Connected_` | src/addrman.cpp:535-552 | Keeps the whole invariant; the time of a known service moves if it is over twenty minutes old. |
| `AddrManager.Manager.GetAddr_` | src/addrman.cpp:519-533 | Keeps the whole invariant; hands out at most 2500 addresses of pairwise different hosts, those at the front of the shuffled vRandom. |
| `AddrRuns.TablesBounded` | src/addrman.h:122-132 | In consistent tables the counters are the table sizes and the bucket limits bound the whole. |
| `AddrRuns.Apply` | src/addrman.cpp:262-552 | Each operation, with any random choices, keeps the tables consistent, and the time stamps too. Services change only as a default port gives way to one heard of, and tried entries stay in the buckets of their services if and only if no such change moves one. |
| `AddrHomes.MadeHomed` | src/addrman.cpp:204-260 | An entry that becomes tried does so in the bucket of its service, and the other tried entries stay in theirs. |
| `AddrHomes.HomedIff` | src/addrman.cpp:335-341 | While the tried table stays as it is, every tried entry is in the bucket of its service if and only if no service moved to another bucket. |
| `AddrHomes.LeavesHome` | src/addrman.cpp:335-341 | A tried entry with the default port whose host is heard of with a port of another bucket is left in the wrong bucket. |
| `AddrRuns.Run` | src/addrman.cpp:94-552 | Every sequence of operations from empty tables ends consistent, with at most 64*64+256*64 entries; if no host is heard of with two ports, every tried entry is in the bucket of its service. |
| `AddrRuns.RecountTried` | src/addrman.cpp:422-427 | Recounting the tried entries changes nothing. |
| `AddrRuns.RecountNew` | src/addrman.cpp:449-454 | The recount of new entries is the sum of their reference counts; the tables stay consistent if and only if every new entry has one reference. |
| `AddrRuns.CountedTwice` | src/addrman.cpp:449-454 | Consistent tables with one entry in any two new buckets: the recount is two, and with it they are not consistent. |
| `AddrRuns.RecountExact` | src/addrman.cpp:449-454 | Bucket sizes add up to the number of new entries if and only if each has one reference. |
| `AddrCheck.CheckEntries` | src/addrman.cpp:467-486 | The code is that of the faulty entry with the lowest id, or zero with the list of what the buckets must hold; mapAddr gains exactly the missing hosts read up to there. |
| `AddrCheck.CheckTried` | src/addrman.cpp:491-499 | Code -11 if and only if some bucket entry is not a tried id or is listed twice; otherwise what is left are the tried ids in no bucket. |
| `AddrCheck.CheckNew` | src/addrman.cpp:501-513 | Code -12 if and only if some id is in more buckets than its count says; otherwise what is left are the missing references. |
| `AddrCheck.Check_` | src/addrman.cpp:460-516 | The code is that of the first test in order that fails; it is zero if and only if the tables pass. mapAddr gains the missing hosts that were read, none on a complete map. Every code names something that is wrong with the tables. |
| `AddrCheck.CodeExplained` | src/addrman.cpp:460-516 | For all tables: each of the fifteen codes is returned only where what it stands for is the case. |
| `AddrCheck.CheckDecidesConsistency` | src/addrman.cpp:460-516 | Tables pass the self-check and meet what it does not look at if and only if they satisfy the whole consistency predicate with proper times. |
| `AddrCheck.RunAndCheck` | src/addrman.cpp:262-552 | After every sequence of operations with clock times the self-check returns zero. |
| `AddrSerial.Serialize` | src/addrman.h:271-318 | A consistent manager writes a well-formed file: new entries in id order, renumbered buckets, tried entries. |
| `AddrSerial.ReadNewInfos` | src/addrman.h:328-341 | New entries get the ids 0, 1, 2, ... in file order, in all tables. |
| `AddrSerial.ReadTriedInfos` | src/addrman.h:342-361 | Each tried entry is restored in its recomputed bucket, or lost if that bucket is full; all are restored if and only if no bucket is home to more than 64 of them. |
| `AddrSerial.ReadBuckets` | src/addrman.h:362-378 | The new buckets are filled as listed, and reference counts grow by the occurrences. |
| `AddrSerial.Unserialize` | src/addrman.h:319-380 | Reading a well-formed file gives a consistent manager with its entries and buckets. |
| `AddrSerial.SaveAndLoad` | src/addrman.h:271-380 | Writing and reading back gives a consistent manager with the same new addresses in the same buckets up to renumbering; a tried address is lost only when its bucket is full, none appears, and none is lost if and only if no recomputed bucket gets more than 64 tried addresses. Time stamps that pass the self-check still do. What is read is in the buckets of its services, and nothing is lost of a manager in which that was so. |
| `AddrSerial.StoredIff` | src/addrman.h:49-54 | All of an entry is written but the time of its last attempt and its place in the tables. |
| `AddrSerial.HomedHasRoom` | src/addrman.h:342-361 | If every tried entry is in the bucket of its service, no recomputed bucket gets more than it holds. |
| `AddrSerial.RunAndReload` | src/addrman.h:271-380 | After every run in which each host has one port, writing and reading back loses no address. |
| `BlockTree.FindFork` | src/main.cpp:1355-1368 | The two walks end at the highest common ancestor. |
| `BlockTree.PathPrefix` | src/main.h:749-757 | The path to any block of a path is a front of that path. |
| `BlockTree.TreeGrows` | src/main.cpp:1543-1558 | A new block below a known parent, or the first block, keeps the tree well formed and changes no path. |
| `BlockTree.HasGreatest` | src/main.h:816-827 | Under the work comparator every non-empty set of candidates has a greatest one. |
| `BestChain.ChainState.InMainChainIff` | src/main.h:749-752 | The constant-time test by height finds exactly the tip and its ancestors. |
| `BestChain.ChainState.ForkPoint` | src/main.cpp:1355-1368 | The fork is where the paths to the tip and to the new block part. |
| `BestChain.ChainState.CollectDisconnect` | src/main.cpp:1370-1373 | As many blocks are disconnected as the current chain has above the fork. |
| `ChainRules.CollectAbove` | src/main.cpp:1375-1388 | The blocks to connect are those from the fork up to the first failed one; it and all above it are marked and dropped as candidates. |
| `ChainRules.NewByHeight` | src/main.cpp:1469-1472 | The recorded vector is the path from genesis to the new tip if and only if no block between the fork and the tip was marked failed. |
| `ChainRules.GoesIff` | src/main.cpp:1391-1465 | Given the lists to disconnect and connect: the attempt goes through if and only if it is not shorter, every old block can be undone, every block up to the first failed one connects, and the disk takes it. |
| `ChainRules.RejectsIff` | src/main.cpp:1391-1446 | A switch that goes through rejects no block; where nothing but blocks can be bad, one that is not shorter fails only by rejecting an invalid block. |
| `ChainRules.BelowFailedIff` | src/main.cpp:1417-1446 | The block that the coin view ends at is the new tip if and only if no block between the fork and the tip was marked failed. |
| `BestChain.ChainState.InvalidBlockFound` | src/main.cpp:1047-1056 | An invalid block that is not on the main chain is marked and dropped, and no reorganisation away from it is due. |
| `BestChain.ChainState.Reject` | src/main.cpp:1426-1432 | A block that does not connect is off the main chain, so marking it keeps the whole invariant. |
| `BestChain.ChainState.SetBestChain` | src/main.cpp:1349-1498 | Succeeds if and only if the blocks up to the first failed one are not fewer than those to undo and each step turns out well. Then the tip is the new block, and the by-height vector is its path exactly when no failed block was in between, keeping the invariant; otherwise tip and vector are unchanged. Marked and dropped are exactly the blocks from the first failed one on and the one found invalid. |
| `ChainRules.WalkDown` | src/main.cpp:1072-1106 | The ancestry walk ends at a failed block, or at a block the main chain builds on (or genesis), having listed exactly the blocks with more work than the tip. |
| `BestChain.ChainState.MarkDescendants` | src/main.cpp:1077-1087 | Everything from the candidate down to the failed ancestor is marked and dropped; the candidates shrink, and no block of the main chain is marked. |
| `BestChain.ChainState.Attach` | src/main.cpp:1092-1103 | Switching to the listed blocks in turn meets no failed block; on success the candidate is the tip. Where nothing but blocks can be bad it succeeds if and only if the lowest listed block is not below the tip and all blocks on the way connect, and otherwise an invalid one is marked. |
| `BestChain.ChainState.ConnectBestBlock` | src/main.cpp:1058-1108 | Always ends; on success no remaining candidate has more work than the tip; the tip never loses work or height. Where nothing but blocks can be bad, the heaviest candidate without a failed ancestor becomes the tip if and only if none of its ancestors with more work than the tip is lower than the tip and all blocks on the way connect; otherwise the tip stays or an invalid block on the way is marked. It aborts only on a disk error. |
| `ChainCases.HeavierRefused` | src/main.cpp:1391-1393 | On any trunk, three blocks against two with more work, of which the last has another difficulty: the heaviest candidate, without failed ancestors, is refused although every block would connect. |
| `ChainRules.MarkJustified` | src/main.cpp:1375-1386 | Marking what builds on a marked block keeps every mark justified by an invalid ancestor. |
| `BestChain.ChainState.AddToBlockIndex` | src/main.cpp:1536-1583 | A new block extends the tree and becomes a candidate, and the tip is chosen again: it loses neither work nor height, candidates are dropped only by being marked, and where nothing but blocks can be bad the heaviest one is judged as above. Known blocks are refused and change nothing. It aborts only on a disk error. |
| `BestChain.ChainState.SetSoftCPBestChain` | src/softcheckpoint.cpp:47-74 | A known checkpoint off the main chain becomes the tip if and only if the switch goes through, whatever its work; the invariant is then kept, and the coin view is at the tip, if and only if the way to it has no failed block. Otherwise the tip stays; without such a checkpoint nothing changes. It aborts only on a disk error. |
| `ChainCases.LighterCheckpoint` | src/softcheckpoint.cpp:68-72 | On any trunk, two branches of two blocks of which one ends with more work: a checkpoint on the lighter one becomes the tip. |
| `ChainCases.CheckpointAboveFailed` | src/softcheckpoint.cpp:68-72 | On any chain, a checkpoint above a block that failed on top of the tip becomes the tip, while the recorded vector is not its path. |
| `ChainCases.OnTopOfTip` | src/main.cpp:1536-1583 | Where nothing but blocks can be bad, a block on top of a tip that no candidate exceeds becomes the tip if it connects, and is marked if it does not. |
| `ChainCases.DerailedRun` | src/softcheckpoint.cpp:76-88 | From an empty node, four blocks of which the third is invalid and a vote for the fourth: the run ends on the checkpoint above the failed block. |
| `BestChain.Follow` | src/softcheckpoint.cpp:76-88 | The tip becomes the last checkpoint if that is pending and the switch goes through, and else stays. It ends derailed if and only if the tip moved above a failed block, aborted only on a disk error, and otherwise running with the invariant. |
| `BestChain.Handle` | src/main.cpp:1536-1583 | An arriving block does what `AddToBlockIndex` does; one without a known parent changes nothing. |
| `BestChain.Take` | src/softcheckpoint.cpp:76-88 | One event: the block is handled and, if accepted, the last checkpoint followed. |
| `BestChain.Receive` | src/main.cpp:1536-1583 | Over any arrivals and votes for soft checkpoints, each event takes its turn as above. While running, the by-height vector is the path to a tip without failed blocks and every failed mark has an invalid ancestor. The run stops early only in an event with a disk error, or in one that follows a checkpoint above a failed block. |
| `ChainRuns.RunKeeps` | src/main.cpp:1536-1583 | Over every such run blocks stay known, the tip is never lower, and it loses work only if a checkpoint with less work was followed. |
| `ChainRuns.CleanIff` | src/softcheckpoint.cpp:68-72 | From a tip without failed ancestors, no failed block above the fork means none on the whole way to the checkpoint. |
| `ChainWork.WorkIsSum` | src/main.cpp:1543-1556 | Over every run from an empty node the known blocks are those that arrived after their parents, below the parents they named, and the work of each is the sum of the work that the blocks on the way to it carried when they arrived. |
| `ChainWork.HeaviestWins` | src/main.cpp:1058-1108 | In every such run, where nothing but blocks can be bad: of the candidates without a failed ancestor the one with the greatest sum that exceeds the tip's, of equals the one with the smaller hash, becomes the tip if and only if its blocks connect and no block on the way outweighs the tip below it. |
| `ChainWork.TipByWork` | src/main.cpp:1069-1106 | In every such run an arriving block leaves the tip or moves it to one with a strictly greater sum, and if it is accepted no candidate has a greater sum than the tip. |
| `ChainWork.ReceiveAll` | src/main.cpp:1536-1583 | A node that starts empty holds exactly the blocks heard of, with their parents and these sums. |
| `UsernameIndex.FaithfulIffLinked` | src/main.cpp:720-770 | All lookups of a name end and agree with a scan of the chain if and only if its entries mirror its registrations on the main chain. |
| `UsernameIndex.WalkFaithful` | src/main.cpp:720-770 | Following correct entries finds the last registration at or below the height asked for. |
| `UsernameIndex.OnlyAnswer` | src/main.cpp:720-770 | Where the entries are right, the scan is the one answer a lookup can give. |
| `NameRuns.ConnectFaithfulIff` | src/main.cpp:1279-1299 | Connecting a block keeps all lookups of a name right if and only if no left-over entry below the name's first registration already points at that block. |
| `NameRuns.ConnectKeeps` | src/main.cpp:1279-1299 | The same for the entries themselves. |
| `NameRuns.DisconnectKeeps` | src/main.cpp:1145-1165 | Disconnecting the tip always keeps the entries right. |
| `NameRuns.AnswersUnchanged` | src/main.cpp:1145-1165 | From any state with right lookups, connecting a block and disconnecting it leaves every answer as it was. |
| `NameChain.Lookup` | src/main.cpp:720-770 | Whenever the walk down the entries ends, the loop returns what it ends with, which is a registration of that name on the main chain not above the height, or none. |
| `NameChain.NameIndex.GetTransaction` | src/main.cpp:720-770 | On the chain state at rest the result is the registration that a scan of the chain up to the height finds, or none; a negative height means the tip. |
| `NameChain.NameIndex.VerifyDuplicateOrReplacementTx` | src/main.cpp:772-813 | True for the identical transaction or one whose second push is a signature on its first made with the key that is the first push of the old one, as far as asked for; without a registration an orphaned latest entry is erased on request. |
| `NameChain.NameIndex.CheckTx` | src/main.cpp:1252-1268 | During a switch a registration is refused if and only if its name is not yet registered by the new blocks and the old branch gives a registration that it does not succeed; if the old branch only has one above this height, the latest entry of the name is erased. |
| `NameChain.NameIndex.CheckOverwrites` | src/main.cpp:1250-1269 | Stops at the first registration refused; the index has lost exactly the erased entries of the registrations before it. |
| `NameChain.WriteConnected` | src/main.cpp:1279-1299 | After the batch write the block's registrations are the latest, and the superseded positions are kept under the height below. |
| `NameChain.WriteDisconnected` | src/main.cpp:1145-1165 | Superseded positions become the latest again; all other entries stay. |
| `NameChain.NameIndex.CheckSpam` | src/main.cpp:1213-1247 | During a switch the spam message of a block passes if and only if it is anonymous, or its signer is not yet registered by the new blocks and the old branch gives a registration with the key that signed it. |
| `NameChain.NameIndex.ConnectBlock` | src/main.cpp:1195-1330 | While the by-height vector is that of the old branch: accepts exactly the well-formed blocks with an accepted spam message and no refused registration, and then the entries of every name are those of the new branch up to this block. |
| `NameChain.NameIndex.Undo` | src/main.cpp:1399-1417 | Disconnecting down to the fork leaves every name with the entries of the shared blocks. |
| `NameChain.NameIndex.ConnectAll` | src/main.cpp:1419-1439 | Connects all blocks, or stops at the first one refused; then the names still looked up correctly on the old branch are exactly those that survive. |
| `NameChain.NameIndex.Reorganise` | src/main.cpp:1375-1497 | A switch goes through if and only if it is not shorter and no block is refused. Then each name is looked up correctly if and only if no entry was left over for it, and histories stay legitimate if and only if the new blocks are clean; otherwise the vector stays, and exactly the surviving names are looked up correctly. |
| `NameSwitch.RolledLinked` | src/main.cpp:1145-1165 | Disconnecting any number of blocks from the top keeps the entries right for the blocks that remain. |
| `NameSwitch.MidwayStep` | src/main.cpp:1250-1299 | Checking and connecting one more block of a switch keeps what is known of a name's entries: right links above its first registration, and which entry lies below that. |
| `NameSwitch.SwitchLinkedIff` | src/main.cpp:1399-1472 | After a switch the lookups of a name are right if and only if no entry below its first registration on the new branch leads into the connected blocks. |
| `NameSwitch.FreshLeavesNothing` | src/main.cpp:1399-1472 | Blocks that no entry of a name points at leave nothing over for it. |
| `NameSwitch.StoppedLinkedIff` | src/main.cpp:1419-1432 | After a stopped switch a name is still looked up correctly if and only if it is registered by the connected blocks and nowhere on the old branch, or its latest entry was neither erased nor rolled back. |
| `NameVerdicts.WalkMidway` | src/main.cpp:720-770 | Every lookup made during a switch ends: a name of the new blocks is not found, any other as the latest entry and the old branch have it. |
| `NameVerdicts.VerdictIff` | src/main.cpp:1250-1269 | The verdict differs from what the new branch permits in exactly two cases: a registration that does not succeed one of the same switch passes, and one that is first on the new branch is refused for one of the old branch. |
| `NameVerdicts.SpamVerdictIff` | src/main.cpp:1213-1247 | The verdict on a spam message differs from that of the new branch in exactly two cases: it passes though only the old branch knows its signer, and it is refused though the new blocks registered its signer. |
| `NameVerdicts.SwitchLegitimateIff` | src/main.cpp:1250-1269 | After a switch each later registration is identical to or signed by the key of the one before it if and only if that holds among the connected blocks. |
| `NameHistories.ExtensionExact` | src/main.cpp:1213-1269 | One block on top of the tip is accepted if and only if it is well formed, its spam message is anonymous or signed by a registered user, and every registration in it is permitted there. |
| `NameKeys.AllowedIff` | src/main.cpp:1250-1269 | A registration is permitted on top of a chain if and only if it repeats the last one of its name there or carries a key signed with that one's key. |
| `NameKeys.CustodyIff` | src/main.cpp:772-813 | All histories of a chain are legitimate if and only if from each registration of a name to the next the transaction is repeated or the new key is signed with the one before it. |
| `NameKeys.NoTakeover` | src/main.cpp:772-813 | On a chain with legitimate histories, where hashes differ, a name registered with a key that never signs is never registered by another transaction. |
| `NameKeys.MessageIff` | src/main.cpp:1213-1247 | A spam message on top of a chain is accepted if and only if it is nobody's or signed with the key that its user registered last. |
| `NameHistories.Extend` | src/main.cpp:1195-1330 | Extending the tip keeps lookups, histories and signed messages right, accepted or not; it is accepted if and only if the block is well formed, its message signed and each registration the first of its name, a repetition or signed with the last key. |
| `NameHistories.ExtendRun` | src/main.cpp:1195-1330 | Over every run that extends the tip: lookups equal scans, each later registration is identical or signed by the key before it, messages are signed by registered users, and where hashes differ no name is taken from a key that never signs. |
| `NameHistories.SwitchTo` | src/main.cpp:1375-1497 | A switch to blocks never connected before moves the chain if and only if the blocks stand on it, are not fewer than those disconnected and are all let through; all lookups stay right unless a block is refused after others were disconnected or could be connected, and only then is it reported as stopped part-way. |
| `NameHistories.Run` | src/main.cpp:1375-1497 | Over every run of switches to blocks never connected before, until one is stopped part-way: each moves the chain exactly as above, lookups equal scans, and all histories on the way are legitimate if and only if every switch that went through was clean. |
| `NameHistories.GoodIffClean` | src/main.cpp:1375-1497 | Of every such run, ended early or not: the histories of all its states are legitimate if and only if the first ones are and every switch that went through was clean. |
| `NameHistories.TakeoverAccepted` | src/main.cpp:1250-1269 | One switch connects two blocks that register a name with different keys, unsigned, and is accepted; the history is not legitimate. |
| `NameHistories.NewcomerShutOut` | src/main.cpp:1250-1269 | A registration that is permitted on the new branch is refused for one that only the old branch has. |
| `NameHistories.SignerLeftBehind` | src/main.cpp:1213-1247 | A block of the new branch is accepted whose spam message is signed by a user that only the old branch has. |
| `NameHistories.ReplacementForgotten` | src/main.cpp:1419-1432 | A refused switch leaves a name, whose key was replaced on the branch that stays, with its older registration. |
| `NameHistories.ReconnectLoops` | src/main.cpp:1145-1165 | Two blocks of one height registering a new name, the first connected again: on every chain that goes on from there a lookup below that height has not finished after any number of rounds. |
| `NameHistories.ReconnectVerdicts` | src/main.cpp:1250-1269 | On that way the first switch lets the registration through if and only if it succeeds the other one, and the switch back is not refused. |
| `ChainNames.StandsAtFork` | src/main.cpp:1355-1388 | The blocks above the fork of two branches of the tree stand on the main chain at the fork, and none of them is on it. |
| `ChainNames.SwitchIff` | src/main.cpp:1349-1498 | Where the checks of names decide whether a block connects, a switch of the tip goes through if and only if the index of names takes the same switch. |
| `ChainNames.InStep` | src/main.cpp:1469-1472 | The main chain that the index works with is then the path to the new tip, as far as it was connected; if the switch does not go through both stay. |
| `TxNumbers.SearchEndsIff` | src/main.cpp:410-429 | The search for an existing number ends if and only if the number lies before the tip block or the tip is genesis. |
| `TxNumbers.HolderUnique` | src/main.cpp:419-429 | A number belongs to one block only. |
| `TxNumbers.NumbersInOrder` | src/main.cpp:1556 | Numbers count all transactions of the chain in order from the first block on. |
| `TxNumbers.TxNumToUsername` | src/main.cpp:410-440 | Out of range gives an error; otherwise the name in the block that holds the number. |
| `TxNumbers.UsernameToTxNum` | src/main.cpp:442-477 | The number of the first transaction with that name in the block of its latest registration, if registered at all. |
| `TxNumbers.NameRoundTrip` | src/main.cpp:410-477 | From a name last registered below the tip to its number and back gives the name. |
| `Locator.DistDoubles` | src/main.cpp:178-193 | The distances are 0 to 11 in steps of one, then twice the previous one minus nine. |
| `Locator.Set` | src/main.cpp:178-193 | The locator lists the blocks at those distances as far as the path goes, then genesis. |
| `Locator.GetDistanceBack` | src/main.cpp:195-214 | The separate step loop returns the distance that belongs to the first entry on the main chain. |
| `Locator.GetBlockIndex` | src/main.cpp:216-230 | Returns the first entry on the main chain, or genesis. |
| `Locator.AtMostDouble` | src/main.cpp:178-230 | The first distance that is not less than d is at most 2d. |
| `Locator.ReadLocator` | src/main.cpp:178-230 | Read by another node, the block found is on the main chain and on the sender's path, at least d and at most 2d back for a last shared block d back; the retraced distance is exact if and only if an entry other than the appended genesis is that far back. |
| `Base58.ConvertBack` | src/base58.h:30-122 | Changing the base of a digit sequence and back gives the sequence, leading zeros included. |
| `Base58.VchRoundTrip` | src/bignum.h:241-266 | Reading the sign-bit byte form of any number gives the number. |
| `Base58.EncodeBase58` | src/base58.h:30-68 | The loops produce the base-58 form with one letter for zero per leading zero byte. |
| `Base58.DecodeBase58` | src/base58.h:78-122 | Fails if and only if the trimmed text has a letter outside the alphabet; otherwise gives the bytes of the number with its leading zeros, without the sign byte. |
| `Base58.DecodeEncode` | src/base58.h:30-122 | Decoding an encoded byte string gives it back, for every byte string. |
| `Base58.EncodeDecode` | src/base58.h:30-122 | Encoding what a text decodes to gives the text without the blanks around it. |
| `Base58.AlphabetOrder` | src/base58.h:27 | The alphabet is the digits and letters without 0, O, I and l, in ascending order. |
| `Base58.EncodedMeans` | src/base58.h:30-68 | The letters of an encoded byte string, as digits with the highest first, are the number that the bytes are, with as many ones in front as zero bytes. |
| `Compact.RoundsToGrain` | src/bignum.h:290-331 | Encoding and decoding rounds down to a multiple of the unit of the size byte. |
| `Compact.RoundsDown` | src/bignum.h:290-331 | The result is not negative, not above the number, and off by less than one part in 2^15. |
| `Compact.CompactIsExact` | src/bignum.h:290-331 | Whatever a 32-bit compact form stands for is represented exactly. |
| `Compact.GreatestCompact` | src/bignum.h:290-331 | The rounded number is the greatest number with a compact form not above the given one. |
| `Compact.RoundedMonotone` | src/bignum.h:290-331 | Rounding keeps the order. |
| `Compact.RoundedIdempotent` | src/bignum.h:290-331 | Rounding twice is rounding once. |
| `Compact.SignKept` | src/bignum.h:290-331 | A negative number is read back as its rounded magnitude with the sign. |
| `Compact.EncodesNormal` | src/bignum.h:310-331 | What is encoded uses the highest byte of the mantissa and keeps the sign bit free. |
| `Compact.NormalIsEncoding` | src/bignum.h:290-331 | Every such form is what its own number is encoded as. |
| `Compact.NormalUnique` | src/bignum.h:290-331 | No two such forms, with or without a sign, stand for the same number. |
| `Retarget.MainLimitFits` | src/chainparams.cpp:40 | The main network's limit has a compact form. |
| `Retarget.MainGenesisAccepted` | src/chainparams.cpp:64 | A chain of the main network's first block alone is accepted, and so would be one with the bits that the code asks of a first block. |
| `Retarget.GetNextWorkRequired` | src/main.cpp:927-987 | For every chain: within an interval of 2016 blocks the bits of the last block; after one, in normal form, the greatest target with a compact form that exceeds neither the limit nor the old target times the seconds that the interval took, between half a week and eight, over two weeks; negative targets are scaled towards zero. The loop finds the first block of the interval. |
| `Retarget.RequiredUnique` | src/main.cpp:927-987 | That rule is met by one value of the bits only. |
| `Retarget.SlowerIsEasier` | src/main.cpp:957-986 | From the same bits a slower interval never gives a harder target. |
| `Retarget.RetargetBounds` | src/main.cpp:957-986 | A retarget gives at most the limit, at most four times the old target, and at least the rounded quarter of it. |
| `Retarget.OnTime` | src/main.cpp:964-986 | After an interval of exactly two weeks the required target is the old one. |
| `Retarget.AcceptedSteps` | src/main.cpp:927-987 | Along every chain that starts with any target within the limit and then carries the required bits, each target is within the limit and near the one before it in that sense. |
| `PageLocks.CoversTouched` | src/allocators.h:61-63 | The pages from the first to the last page of a range that does not wrap around are those that hold a byte of it. |
| `PageLocks.CoversWrapped` | src/allocators.h:61-64 | A range that wraps around covers no page, unless its end comes back to the page of its start, and then that one. |
| `PageLocks.LoopEndsIff` | src/allocators.h:64 | A loop over pages, whose addresses wrap around, ends if and only if its end is not the last page of the address space. |
| `PageLocks.LockPages` | src/allocators.h:64-76 | The count of each page from the first to the last rises by one, none if the last is below the first, and newly counted pages are locked. |
| `PageLocks.UnlockPages` | src/allocators.h:87-99 | The count of each page from the first to the last falls by one, and pages without a count are unlocked. |
| `PageLocks.LockedPageManager.LockRange` | src/allocators.h:57-77 | The range joins the live ones, and every count is the number of live ranges covering the page. |
| `PageLocks.LockedPageManager.UnlockRange` | src/allocators.h:80-100 | One live range goes, and every count is again that number. |
| `PageLocks.LockedPageManager.LockedIffCovered` | src/allocators.h:57-100 | A page is locked in the operating system if and only if some live range covers it. |
| `PageLocks.LockedPageManager.LockedIffTouched` | src/allocators.h:57-100 | If no live range wraps around, that is if and only if some live range touches it. |
| `PageLocks.Run` | src/allocators.h:57-100 | Any sequence of locks, and unlocks of live ranges, keeps the counts and the locked pages right. |

## Left out

- Disk, LevelDB and Berkeley DB access: the index is a map, blocks are values, outcomes are arbitrary.
- SHA, scrypt, ECDSA and the keystore: function parameters.
- JSON-RPC, HTTP, websockets, RSS and scripts: interface plumbing.
- libtorrent and DHT sessions: threads and calls into code that is not part of this model.
- src/checkqueue.h: the code that takes and runs jobs is commented out.
- Select_ and GetChance: floating-point weighting of random choices; only the recounts are modelled.
- Bloom filter, limitedmap, alerts and the compressed amounts: they would add easy members.
- Testnet difficulty rules, ComputeMinWork, mining, wallet notification and logging.
- Hash keys of the username index: keys are taken as free of collisions.
- Orphan blocks: `BestChain.Receive` skips blocks without a known parent.
- The warning state about invalid chains with more work (nBestInvalidWork) and the memory pool.
- Locks and threads: every operation runs to its end under the node's lock.
- AddrSerial.Unserialize: reads well-formed files with the current bucket count only; other bucket counts and damaged files are not modelled.
- AddrManager.Manager.Create: does not model the wrap-around of the 32-bit id counter.
- TxNumbers.TxNumToUsername: numbers are unbounded, so a total that exceeds 32 bits is not modelled; it requires a number for which the search ends.
- Locator.Set: the step size is unbounded; it does not model an overflow of 32 bits.
- NameChain.Lookup: requires entries for which the walk ends, since on others the loop does not (`ReconnectLoops`).
- NameHistories.Run: ends at the first switch that is stopped part-way, since lookups may not end afterwards; `Reorganise` says which names are lost.
- NameChain.NameIndex.Reorganise: takes the blocks above the fork as given (`ChainNames` relates them to the tree); a crash between two index writes and the memory pool are not modelled with the index.
- PageLocks.LockedPageManager.LockRange: requires a range that does not end on the last page of the address space, since the loop would not end (`LoopEndsIff`); a refusal by the operating system is ignored as in the code.
- BestChain.ChainState.InvalidBlockFound: requires a block off the main chain; its one caller meets that (`Reject`), so the reorganisation away from it is never due.
- Soft checkpoints: which votes make one, and the votes themselves, are not modelled; any known or unknown block may be voted.
