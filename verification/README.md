# Verified model of simplepool

simplepool is a Bitcoin stratum pool. This project is a Dafny model of the parts of it
that decide what is paid, to whom and whether it is paid once, with proofs of what they
promise. `dafny verify dfyconfig.toml` checks everything.

| files | component |
|---|---|
| `ShareDedupe.dfy` | the server-wide share dedupe table: FIFO ring, linear-probing index, backward-shift deletion |
| `Pplns.dfy`, `WindowPayout.dfy`, `PayoutPipeline.dfy` | a coinbase-direct PPLNS window: split, payment order, greedy payment, redistribution, and their composition |
| `Bytes.dfy`, `CoinbaseTx.dfy`, `CoinbaseBuilder.dfy`, `CoinbaseWire.dfy`, `CoinbaseWindows.dfy`, `JobCoinbase.dfy` | the coinbase parser and printers, the byte layout they must have, the builders, and the finished coinbase end to end |
| `WindowWalk.dfy`, `Distribution.dfy`, `BlockStatus.dfy`, `FractionLedger.dfy`, `Settlement.dfy` | the window query, distribution of matured blocks, block status, the payout queue, and whole runs of them |
| `WorkerCredits.dfy`, `OwedFractions.dfy` | the same worker by worker: whose account a block's credits go to, and what each miner the coinbase skipped is owed |
| `WalletFunding.dfy`, `ChainEvidence.dfy`, `TipChain.dfy` | what stands behind a payment: what the coinbase paid the pool wallet, the evidence that named the block, and the chain under reorgs |
| `Jobs.dfy`, `JobDifficulty.dfy`, `Difficulty.dfy`, `DifficultyRules.dfy`, `JudgedDifficulty.dfy` | job reference counting, the per-connection job-difficulty ring, assigned difficulty over whole connections and rule by rule, and the two side by side |
| `WriterQueue.dfy`, `AuthTable.dfy` | the batched database writer and the authorize limiter |
| `Merkle.dfy`, `Base58.dfy` | Merkle branches of the coinbase, base58 decoding |
| `Sums.dfy`, `Options.dfy` | sums, permutations, proportional shares; optional values |

How the C is read:

* Doubles are exact reals; a cast to an integer is the floor. Integers are unbounded, and
  unsigned wrap-around is written out where it decides something (clock ages, the home-slot
  multiplication, amounts read as 64-bit).
* Hashes and address decoding are parameters: any pairing function for the Merkle tree, any
  home function for the tables, any partial map from addresses to scripts.
* Database tables are sequences and maps. A transaction lands whole or not at all, and which
  ones land is an arbitrary input; so are the backend's answers.
* Code that runs under a lock is one atomic step, and a run is any sequence of steps.
  A step whose guard does not hold does not happen.
* Block hashes are compared in one letter case.

What the proofs found about the code, each with an input and the exact condition:

* The bounded window walk pins its id range on every table with rows. On an empty one the range
  stays open, and shares committed before the payout query are read by it without the window
  limit (`WindowWalk.EmptyTablePinsNothing`, `EmptyTableOverpays`). If somebody else empties the
  table between two reads, the walk settles for the last batch it read; the pool itself never
  deletes shares.
* A block is filed at the value its template announced and the pool wallet is paid from what the
  coinbase spends. On a server-provided coinbase the first is the sum of all outputs and the second
  the one spendable output: commitments that carry value make the distribution credit more than the
  wallet received (`WalletFunding.ValuedCommitmentOverpays`, `TemplateFundedIff`).
* Lowering `fee_bps` between finding a block and distributing it does so too
  (`WalletFunding.LoweredFeeOverpays`, `FundedOnSameValueIff`).
* The pass by template tips trusts the newest template above a block, however old. A reorg that
  replaces the block without a template at that height ever being seen leaves it confirmed, and it
  is paid once the new branch is a hundred blocks long (`TipChain.ReorgedBlockIsPaid`,
  `NamedIsInChainIff`).
* The broadcast of a new job reads the connection's difficulty while the message that tells the
  miner may still be waiting; the job is then judged at a difficulty the miner has not been told
  (`JudgedDifficulty.NotifyOvertakes`, `JudgedAsTold`).
* The template path does not reserve the operator's output, so a coinbase with a fee can exceed
  the byte ceiling by it (`CoinbaseWindows.FeeGoesOverCeiling`, `TemplateFitsIff`).
* Between swapping a job and retiring the old one, the old job cannot be looked up, so a submit
  for it is answered as stale (`Jobs.ReplacedJobIsUnseen`, `SolvableIff`).
* `stratum_server_free` frees the ring's jobs without its lock and leaves the pointers, while
  connection threads are detached: a lookup then reads destroyed jobs
  (`Jobs.LateLookupReadsDestroyed`, `RunIsSafeIff`).
* `store_flush` also returns success when a batch was given up; the comment on `committed_seq`
  says "persisted" (`WriterQueue.FlushReturnsOnLoss`, `FlushPersistsIff`).
* The authorize gate reads the clock before it takes the lock; a window opened in between makes
  the unsigned age wrap, and the count is forgotten (`AuthTable.StaleGateForgets`, `LockedIff`).
* With `initial_diff` at or below zero, no promised floor and a chain below difficulty one, the
  first `mining.set_difficulty` is above the network difficulty
  (`Difficulty.FirstDifficultyInRangeIff`); and a job swapped in between clamp and send can be
  easier than the difficulty on its way (`SwapBeforeSendOvershoots`, `FirstDifficultyAfterSwapIff`,
  `InRangeWhenSentIff`).

## Model

| member | source | states |
|---|---|---|
| `ShareDedupe.IndexFind` | src/stratum.c:1961-1969 | a probe from the home slot ends and answers whether the key is in the table |
| `ShareDedupe.IndexInsert` | src/stratum.c:1971-1977 | adds exactly the key and keeps every key reachable and unique |
| `ShareDedupe.HomeBetweenIsDistance` | src/stratum.c:1979-1986 | the cyclic interval test is a comparison of forward distances from the hole |
| `ShareDedupe.HoleMoves` | src/stratum.c:2007-2009 | moving a stranded key back into the hole strands nobody and loses no key |
| `ShareDedupe.HoleCloses` | src/stratum.c:2006-2011 | at the end of the cluster no key needs the hole, so blanking it keeps every key reachable |
| `ShareDedupe.IndexRemove` | src/stratum.c:1988-2012 | backward-shift deletion ends, removes exactly the key, and keeps all others reachable, in tables that wrap too |
| `ShareDedupe.LayoutIsCanonical` | src/stratum.c:1988-1995 | the index is the table built by inserting its keys in order, so after a deletion it is as if the key had never been inserted |
| `ShareDedupe.RoomLeft` | src/stratum.c:1971-1972 | fewer keys than slots leave an empty slot, so every probe ends |
| `ShareDedupe.DedupeTable.RingPush` | src/stratum.c:2023-2029 | the ring drops its oldest key only when full and appends the new one |
| `ShareDedupe.DedupeTable.CheckAndAdd` | src/stratum.c:2014-2034 | duplicate exactly when the ring holds the same share, 0 and 1 counting as one, else recorded; ring and index hold the same duplicate-free keys |
| `ShareDedupe.NormalIsSame` | src/stratum.c:2017 | storing 0 as 1 makes no other two keys the same |
| `ShareDedupe.DedupeTable.IndexLayout` | src/stratum.c:375-382 | in every valid state the index is the canonical table of the ring's keys |
| `ShareDedupe.ServerTable` | src/stratum.c:52-59 | the pool's own ring, slot count and home function make a valid empty table |
| `ShareDedupe.HomeIsTopBits` | src/stratum.c:1954-1959 | the home slot is the top sixteen bits of the 64-bit product |
| `ShareDedupe.LiveIsLastCredited` | src/stratum.c:2014-2034 | over every run the table remembers exactly the last R credited keys |
| `ShareDedupe.DuplicateIffRecent` | src/stratum.c:2014-2034 | a call is a duplicate exactly when its key is among the last R credited, and credits exactly otherwise |
| `ShareDedupe.CreditedOnce` | src/stratum.c:1988-1995 | no key is credited twice within R credits of each other |
| `ShareDedupe.RepeatsAreAnswered` | src/stratum.c:2014-2034 | over every run, on the keys as submitted: a call is a duplicate exactly when an earlier call with the same share was not and fewer than R calls in between were not |
| `ShareDedupe.DistinctSharesAreFresh` | src/stratum.c:2014-2034 | a share unlike every one before it is never refused |
| `ShareDedupe.RecordedShareIsRefused` | src/stratum.c:2014-2034 | a recorded share is refused until R others have been recorded |
| `ShareDedupe.Replay` | src/stratum.c:2016-2034 | the array implementation gives exactly those answers, call by call |
| `Pplns.FeeOf` | src/pplns.c:41-45 | the fee is zero or at least dust, and never negative |
| `Pplns.FeeIs` | src/pplns.c:41-45 | the fee is the rate in basis points rounded down, dropped below 546 sats or without an operator |
| `Pplns.DivideReward` | src/pplns.c:52-66 | refuses a negative difficulty, else gives every claim its truncated share and their sum |
| `Pplns.SplitWindow` | src/pplns.c:13-95 | accepts exactly the windows whose shares do not exceed the payable amount; fee plus payable is the reward |
| `Pplns.SplitIsExact` | src/pplns.c:68-81 | the payees sum to the payable amount exactly, each at its truncated share, nobody negative, the remainder on the first |
| `Pplns.SplitOfWholeWindow` | src/pplns.c:68-81 | dividing by the claims' own total never overshoots, and the remainder is below one sat per claim |
| `Pplns.RanksSorted` | src/pplns.c:100-135 | the rank array is sorted by descending key, ties by position, and holds every index |
| `Pplns.PlaceWaiting` | src/pplns.c:137-161 | the reserved slots hold the first eligible claims by owed fraction |
| `Pplns.PlaceRest` | src/pplns.c:162-168 | everyone not placed follows in rank order, nobody twice |
| `Pplns.OrderClaims` | src/pplns.c:112-172 | refuses only an empty window; the order is a permutation with at most a quarter of the slots promoted, most owed first, nobody waiting left out while a slot is free, and the rest by difficulty, ties by position |
| `Pplns.OrderIsPermutation` | src/pplns.c:162-171 | the payment order is a permutation of the claims |
| `Pplns.OrderIsFair` | src/pplns.c:137-168 | reserved slots go to eligible claims by descending owed fraction, to nobody owed less than one passed over; the rest by descending difficulty |
| `Pplns.OrderIsPromised` | src/pplns.c:132-168 | the computed order is that one, stated on the claims alone |
| `Pplns.LongestWaitingIsFirst` | src/pplns.c:145-161 | with a slot reserved, the longest-waiting eligible claim is paid first |
| `WindowPayout.SelectFits` | src/coinbase.c:877-913 | the greedy pass stays in budget, pays only claims above the floor, and accounts for every claim as paid, below the floor or capped |
| `WindowPayout.SomebodyIsPaid` | src/coinbase.c:897-923 | somebody is paid exactly when some claim above the floor fits the budget alone |
| `WindowPayout.FirstIsPaid` | src/coinbase.c:864-913 | a first payee that fits alone is paid |
| `WindowPayout.GreedyIsMaximal` | src/coinbase.c:896-902 | nobody dropped for room could still have been paid |
| `WindowPayout.GreedyIff` | src/coinbase.c:877-913 | a payee is paid exactly when it clears the floor, has a script, and with those paid before it leaves the operator a slot and stays in the budget |
| `WindowPayout.SlotsSuffice` | src/coinbase.c:784-785 | among 200 payees the slots never run out before the operator's |
| `WindowPayout.ScalingIsSafe` | src/coinbase.c:950-974 | scaling takes from no survivor and never overshoots |
| `WindowPayout.Redistribute` | src/coinbase.c:950-977 | survivors are scaled in proportion, the remainder on the first of the largest, and the payable amount is spent exactly |
| `WindowPayout.GreedyPay` | src/coinbase.c:877-913 | outputs and paid marks are exactly those of the selected payees, in order |
| `WindowPayout.CheckClaims` | src/coinbase.c:845-856 | refuses a missing address or a negative amount, else totals the claims |
| `WindowPayout.ResolveWindow` | src/coinbase.c:797-1001 | succeeds exactly on readable claims that add up and of which one fits; outputs sum to the reward, the operator gets the fee, no paid miner less than its claim |
| `WindowPayout.ResolverPaysIff` | src/coinbase.c:844-923 | on readable claims that add up the only refusal is that nobody fits |
| `WindowPayout.PayoutCosts` | src/coinbase.c:896-903 | a payout costs exactly what the greedy pass spent, and the operator's output on top |
| `PayoutPipeline.PermutedTotals` | src/main.c:444-454 | permuting payees changes neither their total nor how many are below the floor |
| `PayoutPipeline.AttachWindow` | src/main.c:378-459 | a window is attached exactly when the splitter accepts it and one claim clears the floor; each claim's payee comes out beside its own worker, all of them in one fair order, never for more than 200 claims |
| `PayoutPipeline.WindowAddsUp` | src/main.c:378-454 | every window the splitter accepts passes the resolver's sum check |
| `PayoutPipeline.WindowIsPaidIff` | src/coinbase.c:829-923 | an accepted window with readable addresses is paid exactly when some claim above the floor fits alone |
| `PayoutPipeline.BlockIsConserved` | src/coinbase.c:925-1001 | outputs sum to the reward, the operator gets exactly the fee, the miners the rest, and the splitter's prediction of the floor's victims is the resolver's count |
| `PayoutPipeline.LongestWaitingIsPaid` | src/coinbase.c:864-913 | with a slot reserved, the longest-waiting claim that fits alone is paid |
| `PayoutPipeline.PayWindow` | src/main.c:378-459 | the composition never refuses for a sum mismatch and conserves the reward |
| `PayoutPipeline.BlockDeltasAreStaged` | src/stratum.c:2464-2500 | a paid block's deltas cancel, and with all workers known the filtered set always passes the staging check |
| `Bytes.FromLEOfLE` | src/coinbase.c:55-66 | little-endian printing and reading are inverse |
| `Bytes.RdVarintAt` | src/coinbase.c:728-740 | reading a printed variable-length integer gives it back and stops after it |
| `CoinbaseTx.ParseOfSerialize` | src/coinbase.c:1164-1227 | parsing the legacy serialization of any well-formed coinbase gives it back |
| `CoinbaseTx.ParseOfSegwit` | src/coinbase.c:1164-1227 | parsing the segwit serialization gives the same transaction and its witness |
| `CoinbaseTx.ParsedIsWellFormed` | src/coinbase.c:1164-1227 | whatever parses can be printed and parsed again |
| `CoinbaseTx.WithWitnessIsSegwit` | src/stratum.c:2074-2088 | re-attaching the witness to a legacy coinbase yields its segwit serialization |
| `CoinbaseTx.BlockCoinbaseParses` | src/stratum.c:2074-2088 | the block's coinbase parses to the hashed transaction plus one 32-byte zero item |
| `CoinbaseBuilder.HeightPushReads` | src/coinbase.c:99-124 | every height above 16 is pushed as itself with the sign bit clear, a zero byte added only when the top byte needs it |
| `CoinbaseBuilder.TagPush` | src/coinbase.c:530-559 | the push is as long as the length probe says |
| `CoinbaseBuilder.HalvesSerialize` | src/coinbase.c:1286-1315 | the halves with any extranonce between them are the serialization of one transaction |
| `CoinbaseBuilder.ReadOuts` | src/coinbase.c:1198-1211 | reads the outputs and counts the spendable ones |
| `CoinbaseBuilder.ReadTemplate` | src/coinbase.c:1164-1234 | accepts exactly the buffers that parse with one spendable output |
| `CoinbaseBuilder.PrintOuts` | src/coinbase.c:1295-1309 | prints the outputs with the reward replaced and everything else in order |
| `CoinbaseBuilder.Splice` | src/coinbase.c:1252-1321 | refuses an empty or inexact replacement and a scriptSig out of range, else prints the halves |
| `CoinbaseBuilder.SpliceRoundTrip` | src/coinbase.c:1125-1330 | for every extranonce the spliced bytes parse to the template with the scriptSig extended and the reward replaced, in the hashed and in the block form |
| `CoinbaseBuilder.FixedBytes` | src/coinbase.c:1242-1250 | the bytes a template costs before any miner is paid |
| `CoinbaseBuilder.SplicedSize` | src/coinbase.c:1242-1250 | the printed outputs take exactly the bytes the budget charged |
| `CoinbaseWire.FourBytes` | src/coinbase.c:55-66 | integers are printed least significant byte first |
| `CoinbaseWire.VarintBytes` | src/coinbase.c:67-81 | a length is one byte, or 0xfd and two, or 0xfe and four |
| `CoinbaseWire.TagPushIs` | src/coinbase.c:530-559 | the tag's first 75 bytes as one push, then the salt as a push of four bytes, each left out when empty |
| `CoinbaseWire.HeightPushIs` | src/coinbase.c:99-124 | OP_0, OP_1 to OP_16, or a minimal little-endian push with the sign bit clear |
| `CoinbaseWire.FieldsAt` | src/coinbase.c:1164-1227 | where a coinbase's bytes keep version, previous output, scriptSig, sequence and locktime |
| `CoinbaseWire.OutputAt` | src/coinbase.c:1198-1211 | an output is eight bytes of value, a length and the script |
| `CoinbaseWire.WitnessBytes` | src/stratum.c:2074-2088 | marker 00 and flag 01 after the version, and one item of 32 zero bytes before the locktime, everything else in place |
| `CoinbaseWire.SplicedExtends` | src/coinbase.c:1252-1330 | whatever the extranonce, the bytes parse to the server's version, input, sequence, locktime and other outputs in place, the scriptSig extended by tag, salt and extranonce, and the payout where the reward was |
| `CoinbaseWindows.SingleSpendsAll` | src/coinbase.c:1344-1375 | one miner and a fee always spend the reward exactly |
| `CoinbaseWindows.BuildFromTemplate` | src/coinbase.c:1403-1430 | succeeds exactly on one spendable output, readable addresses and a scriptSig in range; every extranonce extends the server's coinbase |
| `CoinbaseWindows.BuildSplit` | src/coinbase.c:574-722 | the from-scratch coinbase for one payee and the operator: built exactly on readable addresses, a fitting commitment and a scriptSig in range; every extranonce parses to version 1, a null previous output, sequence 0xffffffff, locktime 0, the height, tag, salt and extranonce, and the payout |
| `CoinbaseWindows.BuildWindowFromTemplate` | src/coinbase.c:1432-1465 | succeeds exactly when the resolver does and the scriptSig is in range; within the ceiling plus the operator's output; every extranonce extends the server's coinbase |
| `CoinbaseWindows.TemplateSize` | src/coinbase.c:1242-1250 | the size of a spliced coinbase, extranonces included, to the byte |
| `CoinbaseWindows.TemplateFitsIff` | src/coinbase.c:1242-1260 | it stays within the ceiling exactly when the greedy pass, the operator's output and the output count fit the budget and three bytes |
| `CoinbaseWindows.TemplateFitsWithoutFee` | src/coinbase.c:1242-1250 | without a fee, and with a count of at most three bytes, it does |
| `CoinbaseWindows.FeeGoesOverCeiling` | src/coinbase.c:1242-1250 | on any template one miner filling the budget and an operator with a fee are built into a coinbase over the ceiling |
| `CoinbaseWindows.BuildWindow` | src/coinbase.c:1004-1123 | succeeds exactly when the resolver does, the commitment fits and the scriptSig is in range; extranonces included it never exceeds the ceiling; every extranonce parses to version 2, a null previous output, sequence 0xffffffff, locktime 0, the height, tag, salt and extranonce, the payout and the commitment |
| `CoinbaseWindows.WindowRoundTrip` | src/coinbase.c:1097-1110 | for every extranonce a from-scratch coinbase parses to the transaction it stands for |
| `CoinbaseWindows.WindowIsFresh` | src/coinbase.c:1097-1110 | stated on the parsed bytes: null previous output, sequence, locktime, version, scriptSig piece by piece, payout and commitment |
| `JobCoinbase.SpliceConserves` | src/coinbase.c:1261-1309 | replacing the reward leaves the total the template paid unchanged |
| `JobCoinbase.TemplatePays` | src/coinbase.c:1125-1330 | for every extranonce the hashed bytes and the block's bytes pay out what the server's coinbase paid |
| `JobCoinbase.PayableIff` | src/coinbase.c:829-923 | with readable addresses an accepted window is payable exactly when some claim above the floor fits the budget alone |
| `JobCoinbase.BuildJobCoinbase` | src/main.c:378-459 | a coinbase is built exactly when the window is payable, the commitment fits and the scriptSig is in range; every extranonce then parses, within the ceiling, to a transaction paying exactly the reward |
| `JobCoinbase.BuildJobOnTemplate` | src/main.c:338-459 | on a server's coinbase the split is of what it pays; built exactly when it has one spendable output, the window is payable and the scriptSig is in range; every extranonce pays what the server's paid, hashed and in the block |
| `WindowWalk.BoundaryQuery` | src/store.c:1592-1597 | the aggregate over the newest rows: least and greatest id, greatest running total and count of those inside the window |
| `WindowWalk.WindowIsSuffix` | src/store.c:1592-1597 | with non-negative difficulties the window is the newest rows from some row on |
| `WindowWalk.InWindowIff` | src/store.c:1592-1597 | a row is in the window exactly when the difficulties of the rows newer than it sum to less than the window |
| `WindowWalk.CoveredIsPinned` | src/store.c:1661-1664 | a batch that reached past the window has its exact bounds |
| `WindowWalk.ExhaustedIsPinned` | src/store.c:1635-1669 | a batch that could not be filled has read the whole table |
| `WindowWalk.UncoveredBatch` | src/store.c:1635-1676 | a batch filled without covering the window is the newest rows, all inside it |
| `WindowWalk.WindowBounds` | src/store.c:1622-1687 | the growing walk ends for any reads; its bounds select exactly the whole-table window, whatever is appended later; unproven coverage is an error; a table found empty leaves the range open, or the last batch if it was emptied in between |
| `WindowWalk.EmptyTablePinsNothing` | src/store.c:1658-1659 | on an empty table the open range is the window exactly when no share arrives before the payout query |
| `WindowWalk.EmptyTableOverpays` | src/store.c:1599-1659 | an input for which it is not: the payout query reads both shares where the window holds one |
| `Distribution.GroupSum` | src/store.c:1395-1406 | grouping by worker loses nothing |
| `Distribution.CreditsAreSolvent` | src/store.c:1478-1497 | a block's credits are positive, never exceed what is payable, and fall short of it by less than a sat per worker |
| `Distribution.PayableIs` | src/store.c:1443-1447 | what is payable is the gross less the rate in basis points rounded down, unless that is below 546 sats |
| `WorkerCredits.DistributedTo` | src/store.c:1478-1502 | distributing a block adds to each worker's account its truncated share of what is payable, by the difficulty of its own shares in the window, and nothing to anybody else |
| `WorkerCredits.DueIs` | src/store.c:1478-1490 | that share without division: in proportion to the work brought, less than a sat short |
| `WorkerCredits.WorkersArePaidTheirShare` | src/store.c:1408-1412 | over every run, each worker's account is the sum of its shares of the blocks distributed |
| `WorkerCredits.PaymentReadsItsShares` | src/store.c:1395-1406 | over every run, a payment reads exactly the shares accepted up to the one that found its block |
| `WalletFunding.SplitPaysWallet` | src/stratum.c:940-955 | whatever the extranonce, the first output of a from-scratch coinbase pays the pool wallet the reward less the fee |
| `WalletFunding.TemplatePaysWallet` | src/coinbase.c:1344-1430 | on a server's coinbase the output that replaces the spendable one does |
| `WalletFunding.OperatorIsSecondOutput` | src/coinbase.c:1344-1375 | the operator's fee, if any, is the only other payout and goes to the operator's script |
| `WalletFunding.FundedIff` | src/stratum.c:2533-2543 | what a distribution may credit is in the wallet exactly when the announced value exceeds the reward spent by no more than the fee at distribution exceeds the fee in the coinbase |
| `WalletFunding.FundedOnSameValueIff` | src/store.c:1434-1447 | when the coinbase spends what was announced: exactly when it took no fee or today's fee on the same value is no smaller |
| `WalletFunding.LowerRateIsSmallerFee` | src/store.c:1443-1447 | on a value of 10000 sats or more that is a rate that has not been lowered |
| `WalletFunding.FundedAtSameRate` | src/store.c:1434-1447 | at an unchanged rate it is enough that no more was announced than is spent, if the coinbase took no fee or the fee on the announced value is not dust |
| `WalletFunding.AnnouncedIsRewardAndBurned` | src/bitcoind.c:379-391 | on a server's coinbase the announced value is the spendable output plus what the other outputs carry |
| `WalletFunding.TemplateFundedIff` | src/main.c:325-330 | there a block is funded exactly when the other outputs carry no more than the two fees differ by |
| `WalletFunding.ValuedCommitmentIsUnfunded` | src/main.c:325-330 | at an unchanged rate commitments worth a sat net of the fee leave the block unfunded |
| `WalletFunding.UnfundedBlockOvercredits` | src/store.c:1434-1497 | wherever the condition fails a due block with one share credits more than the wallet received |
| `WalletFunding.LoweredFeeOverpays` | src/store.c:1434-1447 | a fee lowered from 100 to 50 basis points credits more than the wallet received |
| `WalletFunding.ValuedCommitmentOverpays` | src/stratum.c:2533-2543 | a server's coinbase of 49 coins and an OP_RETURN of one credits more than the wallet received, the fee unchanged |
| `WalletFunding.PaymentIsFunded` | src/stratum.c:2533-2543 | a funded block's credits never exceed the output its coinbase paid the wallet |
| `WalletFunding.CreditsAreCovered` | src/stratum.c:2533-2543 | in every reachable state all credits together are covered by what the coinbases of the blocks paid put in the wallet, each of them funded |
| `BlockStatus.SetStatusIsOne` | src/store.c:1111-1140 | with unique hashes an update by hash changes one row |
| `BlockStatus.NodePass` | src/reconcile.c:25-73 | candidates are judged up to the first answer that is not a hash; the latch and whether the fallback runs follow from that answer |
| `BlockStatus.JudgeAllRows` | src/reconcile.c:30-67 | exactly the candidates whose update landed are judged, by their own answer |
| `BlockStatus.NodeDecides` | src/reconcile.c:30-67 | a candidate whose hash the node returns is confirmed at its depth, any other answer orphans it, and nothing else of the row changes |
| `BlockStatus.SettledRowsStay` | src/reconcile.c:30-67 | a row a hundred deep, above the tip, orphaned or rejected is not asked about and not changed |
| `BlockStatus.CandidatesAreOpen` | src/store.c:1079-1090 | a pass asks about at most sixteen rows, each pending or confirmed less than a hundred deep and not above the tip |
| `BlockStatus.TemplatesPassIsIdempotent` | src/store.c:1154-1223 | the templates pass is idempotent, changes only verdicts and never a rejected row |
| `BlockStatus.TemplatesStoredKeeps` | src/store.c:1202-1215 | with either update failing, still only verdicts change |
| `BlockStatus.LatestTipDecides` | src/store.c:1159-1188 | a block is confirmed exactly when the latest tip above it builds on it, and orphaned otherwise |
| `BlockStatus.WithoutATip` | src/store.c:1192-1197 | with no tip above it a block inside the chain is left alone and one outside it is orphaned |
| `BlockStatus.RecordFilesOnce` | src/store.c:922-926 | a block is filed once per hash |
| `Settlement.WalkIsDistributorWindow` | src/store.c:1395-1406 | the walk's bounds select, at any later time, the rows a distribution anchored on the then newest share reads |
| `Settlement.PaymentIsSound` | src/store.c:1374-1502 | a distribution is made from a due row and pays out what is payable, short of less than a sat per worker, and nothing without shares |
| `Settlement.UnanchoredBlockPaysNobody` | src/store.c:1395-1406 | a block no share is filed under is latched and credits nobody |
| `Settlement.PassIsAccounted` | src/store.c:1426-1533 | a pass distributes each block at most once, and credits are what was distributed, with any transaction failing |
| `Settlement.PassPaysAll` | src/store.c:1426-1533 | when all transactions land no due block is left |
| `Settlement.FailureEndsPass` | src/store.c:1448-1533 | a failed transaction ends the pass with nothing of its own written; only a block with nothing payable is passed over |
| `Settlement.StepKeepsInv` | src/reconcile.c:13-151 | every step keeps the accounts, the latches and the rejected rows |
| `Settlement.RunIsSound` | src/reconcile.c:86-148 | over every run with failures anywhere no block is distributed twice or off an unconfirmed or shallow row, and credits equal what was distributed |
| `ChainEvidence.StatusRow` | src/reconcile.c:25-84 | a row a pass leaves confirmed was so before, or the node or the latest tip above it named it in that pass |
| `ChainEvidence.RunIsGrounded` | src/reconcile.c:25-148 | over every run each confirmed row and each payment rests on such a pass, at the depth it records |
| `ChainEvidence.PaymentIsBuried` | src/reconcile.c:130-136 | over every run each block paid had been named by the node or by the latest tip above it in a pass whose tip was at least 100 deep over it |
| `TipChain.StillInChainIff` | src/store.c:1159-1169 | a block once in the chain is in it later exactly when no reorg has replaced its height, or the block came back and was not replaced again |
| `TipChain.ObservedWasSeen` | src/store.c:1171-1177 | what a pass observes at a height is what the latest template at that height showed, trimming included |
| `TipChain.NamedIsInChainIff` | src/store.c:1171-1190 | over every run beside every history of the chain, a block the latest tip names is in the chain exactly when no reorg has replaced its height since that template was seen, or it came back since |
| `TipChain.PaymentIsInChain` | src/reconcile.c:86-148 | every payment is of a block found at least 100 deep that stood in the chain at that pass, unless a reorg replaced its height after the template above it was last seen |
| `TipChain.ReorgedBlockIsPaid` | src/store.c:1171-1190 | a run that pays a block which had left the chain |
| `Settlement.RunIsOnward` | src/reconcile.c:25-84 | over every run rejected is terminal, a distribution latch is never cleared, and a -1 backend latch is never left |
| `Settlement.PassNeverSkips` | src/reconcile.c:130-148 | no sequence of backend answers makes a PPLNS pass skip a block confirmed at least 100 deep |
| `Settlement.PassSettlesAll` | src/store.c:1865-1882 | a pass whose settlement commits leaves no decided block staged, or exactly 64 fewer when more were waiting than one query lists |
| `Settlement.SettlementClears` | src/store.c:1865-1917 | settling takes exactly the listed blocks out of the queue |
| `Settlement.SettledByItsFate` | src/store.c:1881-1909 | over every run, a staged block is applied by a pass that has it confirmed and discarded by one that has it orphaned |
| `Settlement.DueBlocks` | src/store.c:1374-1381 | exactly the due blocks, each once, lowest first |
| `Settlement.DistributeDue` | src/store.c:1426-1533 | one transaction per block; the first failure ends the pass with nothing of its own written |
| `Settlement.Pool.Reconcile` | src/reconcile.c:13-151 | one pass: statuses, settlement, distribution on the single exit path |
| `FractionLedger.DeltasCancel` | src/stratum.c:2474-2496 | entitled minus got sums to zero over a block |
| `FractionLedger.FilterDrift` | src/stratum.c:2491-2495 | dropping small deltas moves the sum by at most 1e-12 each |
| `FractionLedger.FilteredSetBalances` | src/store.c:1753-1768 | with all workers known the filtered set of at most 200 payees is never refused |
| `FractionLedger.WindowFractions` | src/stratum.c:2466-2497 | the loops compute exactly the filtered deltas, whose sign and size the rows below state |
| `OwedFractions.DeltaIs` | src/stratum.c:2480-2490 | a skipped payee's delta times the window is its claim; a paid one's times the window times the paid claims is its claim times their difference |
| `OwedFractions.KeptIsOwn` | src/stratum.c:2491-2496 | each payee's worker is staged with its own delta |
| `OwedFractions.ClaimDelta` | src/main.c:444-454 | the delta staged for a claim's worker is that claim's, wherever the payment order put it |
| `FractionLedger.UpsertBalance` | src/store.c:1891-1897 | an upsert moves the ledger by exactly the delta |
| `FractionLedger.Stage` | src/store.c:1729-1812 | staged exactly when rows are writable, cancel and commit; otherwise nothing is written |
| `FractionLedger.StageAcceptsIff` | src/store.c:1753-1768 | refused exactly when the rows to be written sum to more than 1e-9 either way |
| `FractionLedger.StageAllFresh` | src/store.c:1770-1795 | a first staging adds exactly the writable rows |
| `FractionLedger.ApplyBalance` | src/store.c:1891-1909 | applying a block moves the ledger by the sum staged for it |
| `FractionLedger.Settle` | src/store.c:1814-1937 | every verdict of a settlement lands or none does |
| `FractionLedger.StepKeepsInv` | src/store.c:1901-1934 | staging and settling keep the queue settled once and the ledger in tolerance |
| `FractionLedger.LedgerIsSafe` | src/store.c:1739-1934 | over every run a staged block is applied at most once or discarded, never both, and the ledger total stays within 1e-9 per applied block |
| `OwedFractions.ApplyTo` | src/store.c:1891-1909 | applying a block moves each worker by exactly what is staged for it |
| `OwedFractions.StageRowTo` | src/store.c:1770-1795 | staging a row again replaces it, and moves nobody else's |
| `OwedFractions.OwedIsWhatWasApplied` | src/store.c:1739-1934 | over every run, what a worker is owed is the sum of the deltas staged for it by the blocks applied, and the queue holds the undecided blocks' in full |
| `OwedFractions.SkippedIsPromoted` | src/pplns.c:151-161 | when its block stands a skipped miner's owed fraction rises by its part of the window, and makes it eligible for a reserved slot |
| `Jobs.StepKeepsInv` | src/stratum.c:270-296 | every step that reads only live jobs keeps the count equal to the references and the job alive exactly while counted |
| `Jobs.ReadsLiveIff` | src/stratum.c:755-768 | only a ring lookup can read a destroyed job, exactly when it meets a slot the closing server freed and nobody else holds |
| `Jobs.RunIsSafeIff` | src/stratum.c:3368-3375 | a run reads no destroyed job exactly when none of its ring lookups meets such a slot |
| `Jobs.EveryRunIsSafe` | src/stratum.c:735-768 | in every interleaving without a ring lookup once the server frees the ring: the count is current slot, ring slots, swapped-out pointer and submits; destroyed exactly at zero; no step reads a destroyed job |
| `Jobs.DestroyedForGood` | src/stratum.c:277-296 | over every run a destroyed job never comes back and a job's name never changes |
| `Jobs.ClosedServerLeaksNothing` | src/stratum.c:3368-3375 | once the ring has been freed and no submit is left every job is destroyed |
| `Jobs.LateLookupReadsDestroyed` | src/stratum.c:3375 | a run in which a lookup during the freeing reads a destroyed job |
| `Jobs.LookupFindsResolvable` | src/stratum.c:745-768 | with unique ids a lookup finds exactly the job in the current slot or the ring |
| `Jobs.LookupHands` | src/stratum.c:745-768 | a lookup hands out the current job if it has the id, and otherwise a job of the ring that has it |
| `Jobs.PublishTakesEffect` | src/stratum.c:3309-3316 | a published job is current, under its own id and with one reference |
| `Jobs.ReplacedJobIsUnseen` | src/stratum.c:3313-3317 | a run in which a job just replaced answers to no lookup |
| `Jobs.ReplacedJobWaits` | src/stratum.c:3313-3317 | in every run a replaced job answers to no lookup until its retire is done |
| `Jobs.SolvableIff` | src/stratum.c:63-88 | over every run, expiry included, a job answers exactly if it is the current one, or one of the last sixteen retired that no sweep since its retire found older than the TTL |
| `Jobs.InSlotIff` | src/stratum.c:717-734 | a retired job sits in its own ring slot exactly as long as that holds |
| `Jobs.ExpiredIff` | src/stratum.c:720-728 | a retired job expires after five minutes by a clock that has not gone back |
| `Jobs.ResolvableIsRecent` | src/stratum.c:94-101 | a lookup never reaches back further than 18 publications |
| `Jobs.SweepsAre` | src/stratum.c:720-728 | the sweep's steps in a row are the loop |
| `Jobs.JobServer.RetireJob` | src/stratum.c:717-736 | the critical section: expired slots freed, the head slot freed and overwritten, the head advanced |
| `Jobs.JobServer.FindJob` | src/stratum.c:745-768 | the current slot wins, then the first ring slot; what is handed out is counted |
| `JobDifficulty.LookedIs` | src/stratum.c:1190-1202 | the ring answers for exactly the last 34 jobs told, with the latest agreement of each |
| `JobDifficulty.JudgedAsAgreed` | src/stratum.c:1159-1202 | over every run, a job of the last 34 published is judged at its latest notify, and zero if never told |
| `JobDifficulty.ResolvableIsJudgedAsAgreed` | src/stratum.c:2285-2286 | every job a lookup can resolve is judged as agreed, with sixteen publications to spare for the submit that holds it |
| `JobDifficulty.Connection.RecordJobDifficulty` | src/stratum.c:1168-1185 | an id in the ring is updated in place, a new one takes the head slot, an empty id or non-positive difficulty changes nothing |
| `JobDifficulty.Connection.JobDifficulty` | src/stratum.c:1190-1202 | the first slot with the id, or zero |
| `Difficulty.ClampInRangeIff` | src/stratum.c:1150-1158 | with a job set the clamp is in range exactly for a positive input, a promised floor, or a chain at one or above |
| `Difficulty.ClampKeeps` | src/stratum.c:1150-1158 | the clamp is stable and leaves alone what is already allowed |
| `Difficulty.ClampInRangeLaterIff` | src/stratum.c:1150-1158 | a clamp under one network difficulty is in range for another exactly when its input is allowed by then, or the difficulty it was clamped to is |
| `Difficulty.ProposalIsCapped` | src/stratum.c:1336-1399 | a retarget moves at most one step unless the miner's own floor was measured |
| `Difficulty.RequestIsHonoured` | src/stratum.c:1407-1420 | a miner's request survives every retarget, short of the port's and the chain's ceilings |
| `Difficulty.StepKeepsInv` | src/stratum.c:1296-1443 | every event keeps miner and pool in agreement and the wire in range |
| `Difficulty.EveryDifficultySentIsInRange` | src/stratum.c:1905-1932 | over every run, jobs swapped at any point, each difficulty clamped while a job is set is between the promised floor and the larger of floor and the network difficulty it was clamped to |
| `Difficulty.InRangeWhenSentIff` | src/stratum.c:1052-1060 | over every run, a difficulty is in range for the network difficulty when it goes out exactly when what went into the clamp is, or the network difficulty the clamp read is no harder than allowed by then |
| `Difficulty.SwapBeforeSendOvershoots` | src/stratum.c:1920-1932 | a port at 5 on a chain at 10, a job at 1 swapped in: the miner is told 5 |
| `Difficulty.FirstDifficultyAfterSwapIff` | src/stratum.c:1920-1932 | with a job swapped in before the send, the first difficulty is in range exactly when the port's start or the job before the swap is no harder than allowed after it |
| `Difficulty.FirstDifficultyInRangeIff` | src/stratum.c:1905-1932 | the proviso on the port and the chain is exact for the first difficulty sent |
| `Difficulty.MinerAndPoolAgree` | src/stratum.c:1651-1673 | between messages the last difficulty an authorized miner was sent is the one the pool holds for it |
| `Difficulty.Connection.Retarget` | src/stratum.c:1296-1443 | the retarget in place; the miner is told exactly when the difficulty changed |
| `Difficulty.Connection.HandleSuggest` | src/stratum.c:1637-1676 | a request after authorize is told exactly when it raised the difficulty |
| `Difficulty.Connection.HandleAuthorize` | src/stratum.c:1901-1932 | seeds, applies the request, clamps, re-arms the window and sends |
| `DifficultyRules.ClampIs` | src/stratum.c:1150-1158 | the promised floor wins over the chain, the chain over the proposal, and anything else stays |
| `DifficultyRules.DueIff` | src/stratum.c:1308-1333 | a window is over when long enough and, with too few shares, stretched to its limit |
| `DifficultyRules.ElapsedWraps` | src/stratum.c:1308 | a clock reading from before the window opened is taken for one long after it |
| `DifficultyRules.RatedIs` | src/stratum.c:1335-1367 | within a factor of two of the target nothing moves; beyond it the difficulty moves in proportion to the share rate, up to the step |
| `DifficultyRules.RetargetIs` | src/stratum.c:1296-1443 | a retarget is that rate, lifted to just under a floor the miner filters at, kept within the request and the port's bounds, and clamped; the window starts again |
| `DifficultyRules.RequestIs` | src/stratum.c:1637-1676 | a request is cut to the pool's limit, clamped and cut to the port's maximum, and only ever raises |
| `DifficultyRules.AuthorizeIs` | src/stratum.c:1901-1932 | an authorize seeds, applies the request, clamps and opens a fresh window |
| `DifficultyRules.EventIs` | src/stratum.c:1296-1443 | shares are counted before they retarget, and the miner is told of every authorize and every change |
| `DifficultyRules.ChainAndWire` | src/stratum.c:1052-1060 | a job moves the network difficulty and nothing else, a send moves the waiting message to the wire and nothing else |
| `JudgedDifficulty.StepKeepsInv` | src/stratum.c:1449-1474 | every step keeps each record tied to the difficulty message in force when it was made, and each notify to the messages out before it |
| `JudgedDifficulty.PendingIsNews` | src/stratum.c:1669-1673 | while a retarget or a request waits to be told, the miner holds another difficulty |
| `JudgedDifficulty.JudgedAsTold` | src/stratum.c:1651-1658 | over every run, the broadcast's read and write at any point, a job is judged at what the miner had been told by its notify exactly when the last message out is the one in force at the record or carries its value; with nothing sent in between, it is when none was pending and is not when a change was; an authorize's own notify always is |
| `JudgedDifficulty.NotifyOvertakes` | src/stratum.c:3324-3331 | a run in which the miner was told 1 and the job is judged at 50 |
| `WriterQueue.PutAppends` | src/store.c:829-842 | a full ring refuses, otherwise the event goes last |
| `WriterQueue.TakeSplits` | src/store.c:791-800 | draining takes the oldest events and leaves the rest in order |
| `WriterQueue.StepKeepsInv` | src/store.c:761-842 | every step of producers and writer keeps each accepted event in exactly one place, in order |
| `WriterQueue.NothingIsDroppedSilently` | src/store.c:788-822 | over every run each accepted event is stored, counted as lost, a row that failed on its own, in hand or queued, in enqueue order |
| `WriterQueue.RunGrows` | src/store.c:816-818 | history is only added to and the committed number only grows |
| `WriterQueue.FlushSeesAllThrough` | src/store.c:1976-1998 | a flush that returns has seen every earlier event through its batch, and returns once they are through and reported |
| `WriterQueue.FlushPersists` | src/store.c:1976-1998 | with nothing lost and no row failed they are in the database, first and in order |
| `WriterQueue.FlushPersistsIff` | src/store.c:1976-1998 | over everything that has been through a batch, exactly then; the error counter at zero says so |
| `WriterQueue.FlushReturnsOnLoss` | src/store.c:803-818 | runs from a fresh store in which the flush returns and its event is not stored |
| `WriterQueue.AttemptsDecide` | src/store.c:718-759 | a batch is stored by the first of three attempts that commits, else lost once, each attempt counting its errors |
| `WriterQueue.Store.EnqueueEvent` | src/store.c:829-842 | the ring and the sequence number in place |
| `WriterQueue.Store.DrainBatch` | src/store.c:791-801 | copies out the oldest events, at most one batch, and the sequence number after them |
| `WriterQueue.Store.WriteRows` | src/store.c:564-709 | a row that fails is counted and passed over, the others are written in order; an unresolved worker counts twice, and a block whose finder is unresolved counts once and is written |
| `WriterQueue.KeptAre` | src/store.c:564-709 | exactly the rows that went in are written, in the batch's order |
| `WriterQueue.ErrorsAre` | src/store.c:564-709 | two errors for a share or credit without its worker, one for any other row that failed, one for an unresolved finder |
| `WriterQueue.Store.CommitBatch` | src/store.c:718-759 | the retry loop decides the batch so, and counts the commit once |
| `AuthTable.FoundIs` | src/stratum.c:1683-1701 | the probe finds an address wherever it is in the table, and there is only one slot for it |
| `AuthTable.ClaimEvictsOldest` | src/stratum.c:1697-1705 | a live slot is given up only when the whole run is live, and then the oldest |
| `AuthTable.ClaimIsNear` | src/stratum.c:1686-1701 | a slot is claimed only among the eight after the address's home |
| `AuthTable.EvictsOnlyWhenFull` | src/stratum.c:1697-1705 | an open window is evicted only when all eight slots hold one, and then it is the oldest |
| `AuthTable.StepKeepsInv` | src/stratum.c:1683-1794 | every event keeps one slot per address and counts no higher than the failures behind them |
| `AuthTable.LockoutIsEarned` | src/stratum.c:107-113 | over every run with collisions and evictions an address is refused only after the configured failures within the lockout period and no success since |
| `AuthTable.LockedIff` | src/stratum.c:1718-1735 | the gate refuses exactly when the slot counts enough failures and its reading is inside the window, not before its start |
| `AuthTable.OthersKeepTallyIff` | src/stratum.c:1697-1705 | other addresses leave a count alone exactly when they do not evict its slot |
| `AuthTable.LockoutIsImposed` | src/stratum.c:1715-1775 | over every run an address that starts failing is refused for the rest of its window exactly from the configured failure on, until its slot is evicted or it succeeds |
| `AuthTable.StaleGateForgets` | src/stratum.c:1720-1727 | runs in which an address that earned its lockout passes a gate whose reading is older than the window, and the count is forgotten |
| `AuthTable.Limiter.Find` | src/stratum.c:1683-1706 | one pass over the run: the address's slot, or the first free, or the oldest |
| `AuthTable.Limiter.AuthGate` | src/stratum.c:1715-1735 | the gate in place |
| `AuthTable.Limiter.AuthFailed` | src/stratum.c:1766-1775 | a failure counted against its own slot or a claimed one |
| `AuthTable.Limiter.AuthSucceeded` | src/stratum.c:1787-1794 | afterwards no slot holds the address |
| `Merkle.BranchesGiveRoot` | src/main.c:71-113 | for every coinbase txid, folding the branches gives the root of the full tree, odd last nodes paired with themselves |
| `Merkle.RootIsTop` | src/main.c:96-111 | the root is the top of the tree in which every node joins its left and right child, or its left one twice at the end of an odd row |
| `Merkle.BranchCount` | src/main.c:71-113 | as many branches as the tree is high, never more than transactions |
| `Merkle.EqualFoldsCollide` | src/share.c:139-151 | two leaves folding to one value exhibit a collision of the pair hash under one of the branches |
| `Merkle.EqualRootsCollide` | src/main.c:71-113 | so two coinbases share a root only through such a collision |
| `Merkle.RaiseLevel` | src/main.c:96-111 | overwriting a row in place gives its parents |
| `Merkle.ComputeBranches` | src/main.c:73-113 | the in-place computation returns branches that fold to the full root for any leaf |
| `Merkle.RootFromBranches` | src/share.c:139-151 | the validator's loop is the fold |
| `Base58.MulAddIs` | src/coinbase.c:167-171 | one digit in: carry and bytes together are 58 times the old value plus the digit |
| `Base58.DigitIs` | src/coinbase.c:151 | 1 to 9, capitals and small letters in order, without 0, I, O and l |
| `Base58.RoomIsEnough` | src/coinbase.c:160 | n base-58 digits always fit in n * 733 / 1000 + 1 bytes |
| `Base58.MulAddInPlace` | src/coinbase.c:166-171 | the carry loop in place |
| `Base58.Decode` | src/coinbase.c:153-188 | a zero byte per leading '1', then the minimal big-endian number; refuses only a foreign character or too small an output buffer |
| `Base58.DecodingIsInjective` | src/coinbase.c:153-188 | no two strings decode to the same bytes |
| `Base58.ThunderAddress` | src/thunder.c:54-103 | accepted exactly without underscore, with 20 to 40 base-58 characters, decoding to 20 bytes |

## Left out

- IEEE double rounding: doubles are exact reals, so the refusals that exist for rounding ("claims exceed the window total", "redistribution overshot") are branches of the model that are shown not to be taken where that follows.
- 64-bit overflow of amounts and of offset-plus-length sums in the template parser, and out-of-memory paths.
- Division by zero in the vardiff rate for a zero target or window: the model takes both as positive.
- `coinbase_expected_payout_slots`: an estimate; the expected slots are an arbitrary input of the payment order. Ordering without amounts (a null `amounts`) is not modelled.
- `qsort` is modelled by its result, the unique ranking under the comparison; the swaps are not.
- A window with no shares yet is refused by `PayoutPipeline.AttachWindow`; the caller's fallback to paying the connected miner is the single-payee builder.
- The aggregation query behind `attach_pplns_window`: worker grouping there, truncation at 200 payees, and excluding workers without an address.
- Bech32 and base58check address decoding (`convertbits`, checksums, script forms): addresses map to scripts by an arbitrary function with scripts of at most 34 bytes where a byte bound needs it.
- `coinbase_count_outputs`: output counting adds no new rule.
- `Jobs.EveryRunIsSafe`: one publishing thread, joined before the server is freed, as in the pool; jobs dropped before they are published and the freeing of the server structure itself are left out.
- `JudgedDifficulty.JudgedAsTold`: the connection's own message is one step, so a broadcast reading the difficulty between the writes of one authorize is left out.
- `TipChain.PaymentIsInChain`: the node's answers of one pass are taken at one moment of the chain.
- `JobDifficulty.JudgedAsAgreed`: job ids are unique and not empty; the pool makes them from a millisecond clock.
- Per-connection failure budgets, call ceilings and the submit rate limiter.
- Header assembly, target conversion and the PPS rate formulas: single-function facts.
- SHA-256, SQLite, JSON, sockets, Redis, curl, configuration and logging.
