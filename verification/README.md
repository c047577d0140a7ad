# Verified model of the consensus engine

This project models the consensus engine of a proof-of-work chain and proves what it is for: which blocks a
node accepts and in which order it may change its mind, what a chain is worth, what a miner's template may
contain, that the optimised search finds what the plain one would, and that the encodings in use lose
nothing. `dafny verify dfyconfig.toml` checks everything.

How the modules build on each other:

- **Arithmetic and targets.** `Arith`, `CompactTarget` (the lossy 32-bit form of a target), `Primitives`
  (headers, transactions, blocks, parameters and the hash functions, which are parameters), `Retarget`,
  `RetargetProofs` and `RetargetExact` (the next target).
- **Outputs.** `Utxo` (the set of unspent outputs as a class), `Supply` (the bound on all money, maturity),
  `Conservation` (exact accounting), `Provenance` (where each unspent output comes from).
- **Paths.** `PathValidation` (what a block must satisfy on top of a header sequence, and the replay of a path),
  `PathReplay` (the loops that compute it), `Genesis`.
- **The chain.** `ChainState` (the node's tables and their invariant), `ChainSteps` (each step on them and the
  decision between steps), `ForkChoice` (switching, checkpoint, reorg limit, the record of a run), `Work`
  (what work means), `Paths` (walking to the first block, the rebuild), `Removal` (purging), `Effects` (what a
  verdict changes),
  `TipExtension` (the incremental check), `Delivery` (one chain handed in out of order), `Blockchain` (the
  node itself, a class whose methods are the steps), `Runs` (all sequences of calls), `HeaderSync`, `HeaderRequests`,
  `SideListing`, `TipSwitch`.
- **The pool and templates.** `PoolIndexes`, `Admission`, `Mempool` (a class), `Selection`, `Template`,
  `WrappingFees` (sums of outputs that leave the 64-bit range).
- **The miner.** `Keccak`, `KeccakSteps` (the permutation against the standard), `Sha3`, `HeaderHash`, `Hasher` (the
  incremental hasher), `Miner`, `MiningRound`, `MinedBlock`, `Submission`, `Merkle`.
- **Encodings.** `Radix`, `Base58`, `BitStrings`, `Bech32`, `Base64`, `Address`, `Mnemonic`, `Wire` (the format),
  `WireIO` (the reader and writer that move along a buffer).

Conventions. A node's whole in-memory state is `Blockchain.View()`, a value of type `State`; its invariant
`Blockchain.Valid()` says that header and link table are inverse to each other, that pool, work, heights and
children agree with them, that the height map is a path to the tip, that the unspent outputs are the replay of
that path, that a checkpoint lies on it, and that all switches so far were legal. Methods state the new tables as
functions of the old ones; what those functions are good for is proved beside them. Signed 64-bit sums and
unsigned 32-bit times and nonces wrap as in the original. Store writes may fail at any point and then leave an
arbitrary file behind. The wall clock and the reorg policy of the environment are arguments of each call.

Where the code does not do what one might expect, the exact condition is proved, with an input that fails:

- `height_index_` is the inverse of the height map only until a purge rebuilds the tables, because the rebuild
  lists side branches too (src/blockchain.cpp:1026, `HeaderSync.RebuildListsSides`). An answer to a locator may
  then start on the wrong branch. It is held against the responder exactly when the asker cannot resolve the
  active header below the start (`HeaderSync.PassesIfConnects`); `SideListing` has the smallest example between two
  nodes, failing and not failing. Every switch restores the listing (`HeaderSync.SwitchListsActive`).
- Activating a path forgets the work of all other blocks (src/blockchain.cpp:549-585). What is proved is that the
  tip's work grows with every switch of a run and that no chain returns; the tip falls behind a candidate that
  was judged valid exactly when a guard holds that back (`Blockchain.VerdictWeighs`).
- Applying a transaction does not ask for distinct inputs, and validating a block asks neither for a single
  coinbase nor for outputs that are non-negative and add up without wrapping. `Conservation` says exactly what
  each of these adds and when value is conserved (`ConservesExactly`, `KeepsToReward`, `PathTotal`), with an
  input for each (`Supply.RepeatedInputMints`, `SecondCoinbaseMints`, `NegativeOutputMints`,
  `WrappedOutputsMint`). The mempool refuses repeated inputs, coinbases and negative outputs.
- The mempool does not refuse outputs whose sum wraps: it looks at the sign of each output, and at a fee computed
  from the wrapped sum (src/transaction.cpp:135-150, src/mempool.cpp:113-125). So one pooled transaction may bring in
  2^64 through a valid template (`WrappingFees.MintingTemplate`), and two may make the node refuse its own template
  (`WrappingFees.TemplateOfPair`; `WrappingFees.InstanceWraps` has amounts in full). A template is good exactly when the fees fit (`Template.TemplateIsValid`,
  `Template.FeesFitMeans`), which small sums guarantee (`Template.SmallSumsFit`).
- The quick check of a tip candidate trusts the tip's height file. Without it, or with another block in it, the
  check never recognises a valid extension, and it may call a block without parent valid
  (`TipExtension.WrongParentMisjudges`, `TipExtension.MissingParentAccepts`). Templates depend on the same file
  (`Template.UnfiledTemplateFails`).
- Transaction lists of different length can have the same Merkle root, exactly when they are filled up to the same
  list (`Merkle.SameRootSameLeaves`, `Merkle.RepeatedLastSameRoot`).
- A search without limit does not end if none of 2^32 nonces is a hit (`Miner.UnlimitedEnds`).

## Model

| member | source | states |
|---|---|---|
| `CompactTarget.CompactRounding` | src/types.cpp:325-371 | Encoding a target below 256^64 and expanding it again never raises it, loses less than one part in 2^15, keeps the order of targets, and a second encoding changes nothing |
| `CompactTarget.ExpandFromTarget` | src/types.cpp:325-371 | Expanding an encoded target gives the target rounded down to a multiple of the unit its exponent names; the sign bit is never set |
| `CompactTarget.OverflowsExact` | src/types.cpp:381-388 | The overflow test for 64 bytes holds if and only if the expanded value is at least 256^64 |
| `CompactTarget.CanonicalIsImage` | src/types.cpp:390-395 | Bits are canonical for 64 bytes if and only if they encode some target below 256^64 |
| `CompactTarget.CanonicalRoundTrip` | src/types.cpp:325-395 | Canonical bits survive expanding and encoding |
| `Primitives.NetworkLimits` | src/chainparams.cpp:12-67 | The limits of all three networks are canonical legal targets with room above them, as the results on work and retargeting ask |
| `CompactTarget.EncodeTarget` | src/types.cpp:342-371 | The byte loop with the carry out of the sign bit computes the encoding the lemmas are about |
| `Retarget.GetNextWorkRequired` | src/block.cpp:246-386 | The loops over height map and header table compute the pure rule on the header sequence up to the best height, and nothing above it is read |
| `Retarget.FindLastNonEmergencyBits` | src/block.cpp:38-54 | The backward walk finds the bits of the last block that is not an emergency block |
| `Retarget.LwmaLoop` | src/block.cpp:297-328 | The weighted sums over the window, emergency samples replaced by the last stable target |
| `Retarget.EmaLoop` | src/block.cpp:344-362 | The exponential average of the solve times in the window |
| `RetargetExact.WeightsRise` | src/block.cpp:297-328 | The weighted sums are the last sample, plus the last two, and so on through the window, so the newest block weighs most; the weights add up to n(n+1)/2 |
| `RetargetExact.DampedExactly` | src/block.cpp:330-342 | Up to five times the block time the target is average * (mean solve time + 1800) / 2400, rounded down once; beyond that it is doubled; it never falls below 19/24 of the average |
| `RetargetExact.EmaStepExact` | src/block.cpp:344-362 | A new gap counts two parts in window + 1, the average so far the rest, rounded down |
| `RetargetExact.EmaOnEvenGaps` | src/block.cpp:344-362 | Over equal gaps the distance of the average from the gap shrinks by (window - 1)/(window + 1) at each step, up to half of window + 1 units of rounding in all |
| `RetargetExact.EmaTargetWithin` | src/block.cpp:344-368 | The estimate lies between the last target scaled by the shortest and by the longest gap |
| `RetargetExact.EvenlySlow` | src/block.cpp:246-386 | After equal blocks with equal gaps of ten to fifty minutes a candidate with the same gap gets the target scaled by gap / 600, at most the limit |
| `RetargetExact.EvenlyFast` | src/block.cpp:246-386 | With gaps of 100 to 600 seconds it gets target * (gap + 1800) / 2400 on a network without the exponential average or with a window of 12, as on mainnet |
| `RetargetExact.StableBitsAre` | src/block.cpp:38-54 | After an emergency block the bits are those of the highest block that is none |
| `RetargetExact.Limits` | src/block.cpp:15-23 | Solve times count with at least 100 and at most 3600 seconds; the weighted average looks back over at most 72 blocks |
| `RetargetExact.MainnetRules` | src/block.cpp:246-296 | On mainnet the limit applies from exactly 1200 seconds after the parent on; before that, up to height six, the bits stay, unless the parent is an emergency block |
| `RetargetProofs.WaitingNeverHarder` | src/block.cpp:246-386 | For a fixed history within the limit, a later candidate time never gives a smaller expanded target, across all branches and after rounding; 32-bit wrap of the parent's time included |
| `RetargetProofs.RetargetBounds` | src/block.cpp:282-386 | On the averaging path with stable targets of at least 2 the new bits are canonical and not zero, and their expanded target lies between avg/2, rounded as bits are, and the smaller of the limit and max(2 avg, 6 last) |
| `RetargetProofs.CombinedTargetBounds` | src/block.cpp:330-384 | The same bounds for the target before it is rounded to bits |
| `RetargetProofs.AverageBetweenSamples` | src/block.cpp:297-330 | The weighted average lies between the smallest and the largest target that is averaged, where an emergency block counts with the last stable target |
| `RetargetProofs.SampleIs` | src/block.cpp:310-322 | Each averaged target is the block's own, or the sample before it when the block is an emergency block |
| `RetargetProofs.NextWorkWithinLimit` | src/block.cpp:246-386 | If no target of the history exceeds the limit, the next one does not either |
| `RetargetProofs.SteadyStateIsFixed` | src/block.cpp:246-386 | With constant bits and gaps of exactly 600 seconds, a candidate at most 600 seconds later keeps the bits |
| `Utxo.UTXOSet.ApplyTransaction` | src/utxo.cpp:76-133 | Result, fee and the new map are those of the pure rule, including the inputs already erased when the fee turns out negative; what the rule means for the set is Provenance.ReplayRecords |
| `Utxo.UTXOSet.SwapIn` | src/utxo.cpp:357-362 | The two sets exchange their contents |
| `Utxo.UTXOSet.Snapshot` | src/utxo.cpp:364-369 | A new set with the same contents |
| `Provenance.ReplayRecords` | src/utxo.cpp:76-133 | The outputs after a valid path are exactly those that a transaction of it made and no later one made again or spent, each recorded with the output, the height of its block and whether a coinbase made it |
| `Provenance.InputsComeFromPath` | src/utxo.cpp:84-130 | Every input in the last block of a valid path spends an output that an earlier transaction made and that is still there, with a script of at least 65 bytes and a good signature, and no coinbase output younger than 100 blocks |
| `PathValidation.ReplayRelax` | src/blockchain.cpp:362-488 | A path valid at one time stays valid, with the same outputs, at every later time and when proof of work is skipped |
| `PathValidation.StepValid` | src/blockchain.cpp:362-488 | Every block of a valid path passes all checks against the replay of the blocks before it |
| `PathReplay.CheckNext` | src/blockchain.cpp:391-488 | The check of one block on the tables built so far is the pure check on the header sequence; on failure the set holds exactly what the pure rule says is left |
| `PathReplay.ExpectedBitsFor` | src/blockchain.cpp:348-360 | The bits a block of the path must carry depend only on the headers below it |
| `Conservation.TransactionAccount` | src/utxo.cpp:76-133 | Every accepted transaction, whatever its inputs and outputs, changes the total by exactly its account: coinbase outputs, less the fee, plus value named twice, less value replaced and value wrapped around |
| `Conservation.ConservesExactly` | src/utxo.cpp:76-133 | With sums in range and free output places, an accepted spend conserves value if and only if it names no output of value twice; otherwise it creates exactly the value named again |
| `Supply.RepeatedInputMints` | src/utxo.cpp:84-133 | An input for the failing side of Conservation.ConservesExactly: an output of 10 named twice pays out 20 |
| `Conservation.BlockAdds` | src/blockchain.cpp:453-488 | An accepted block adds exactly its coinbase less the fees, plus later coinbases, plus value named twice, less value replaced and whole multiples of 2^64 lost by wrapping |
| `Conservation.KeepsToReward` | src/blockchain.cpp:453-488 | An accepted block adds at most its reward if and only if later coinbases and value named twice are covered by what is unclaimed, replaced and wrapped |
| `Conservation.PathTotal` | src/blockchain.cpp:391-488 | The outputs of any validated path are worth exactly the rewards plus the excess of its blocks; Conservation.KeepsToReward says when a block has a positive excess |
| `Conservation.SecondCoinbaseMints` | src/blockchain.cpp:453-488 | A valid path with a second coinbase in its block is worth more than its rewards |
| `Conservation.NegativeOutputMints` | src/blockchain.cpp:453-488 | A valid path whose coinbase has a negative output holds an output worth more than all rewards |
| `Conservation.WrappedOutputsMint` | src/transaction.cpp:135-139 | A valid path whose coinbase outputs wrap around to zero is worth 2^64 |
| `Supply.BlockAddsAtMostReward` | src/blockchain.cpp:453-488 | An accepted block adds at most its reward to the total value |
| `Supply.SupplyBound` | src/blockchain.cpp:453-488 | The outputs of a validated path are worth at most the rewards of its blocks, which is below the declared total supply |
| `Supply.RewardsBelowTotalSupply` | src/block.cpp:195-201 | The rewards of any number of blocks sum to less than 1,000,000,000 coins |
| `Supply.RewardSchedule` | src/block.cpp:195-201 | In epoch e of 200000 blocks the reward is 2500 coins divided by 2^e, rounded down to the unit, and nothing from epoch 64 on |
| `Supply.SpentCoinbaseIsMature` | src/utxo.cpp:111-113 | Every coinbase output that a transaction in the last block of a valid path spends exists and is at least 100 blocks old |
| `ChainState.LinkedAgree` | src/blockchain.cpp:329-346 | Two linked chains that share a header share its height and everything below it |
| `ChainState.PathToUnique` | src/blockchain.cpp:329-346 | The tables leave only one path to a block |
| `ChainState.WorkMeaning` | src/blockchain.cpp:636-660 | A recorded height is the length of the block's path, its work the sum along it, and every ancestor has work |
| `ChainState.ActiveMeaning` | src/blockchain.cpp:544-597 | The height map is a linked header chain from a first block to the tip, and the tip's work is the sum along it |
| `Paths.BuildPathToGenesis` | src/blockchain.cpp:329-346 | Finds the path to a block if there is one, and fails only if there is none, whatever cycles the tables hold |
| `Paths.Rebuild` | src/blockchain.cpp:987-1030 | For every iteration order the fixpoint ends with work and height for exactly the headers a path leads to, equal to the sum and length of that path, and all of them that have a parent are listed with their height |
| `Paths.RebuildPass` | src/blockchain.cpp:1002-1029 | One pass keeps everything found right; without progress every header is settled |
| `Removal.CollectSubtree` | src/blockchain.cpp:498-519 | The list holds exactly the blocks the children table leads to from the root |
| `Blockchain.Blockchain.PurgeCachedSubtree` | src/blockchain.cpp:498-542 | Exactly the descendants without listed height disappear, the active chain stays, and the rest is rebuilt exactly |
| `Blockchain.Blockchain.RebuildKnownBlockState` | src/blockchain.cpp:987-1030 | The node's four tables after the rebuild: work and height exact, children complete, active blocks listed |
| `Blockchain.Blockchain.constructor` | src/blockchain.cpp:271-285 | A node with an empty data directory satisfies the invariant with the first block active, listed and pooled |
| `Genesis.GenesisReplay` | src/block.cpp:203-244 | The first block passes every check of a path once its time is acceptable |
| `Blockchain.Blockchain.ValidatedPrefixLength` | src/blockchain.cpp:362-492 | The prefix reported is valid, its last bits are reported, the set is its replay, and on a failing block the reason and what is left in the set are those of the check |
| `Blockchain.Blockchain.RefreshLocalCheckpoint` | src/blockchain.cpp:1184-1201 | Unless pinned, the checkpoint moves to two blocks below the tip; nothing else changes |
| `Blockchain.Blockchain.CandidateMatchesLocalCheckpoint` | src/blockchain.cpp:1203-1208 | True if and only if the candidate path has the checkpoint's block at its height |
| `Blockchain.Blockchain.ReorgDepthFromCandidate` | src/blockchain.cpp:58-73 | The number of active blocks above the common prefix with the candidate |
| `Blockchain.Blockchain.ActivatePath` | src/blockchain.cpp:544-597 | On success the tables are those of the new path, its block files are written and the checkpoint has moved; on a failed write the tables and outputs are unchanged; reliable writes succeed |
| `Blockchain.Blockchain.ValidateCandidate` | src/blockchain.cpp:662-676 | A cached block with a connected parent always has a path; it is judged valid exactly when the replay of that path succeeds |
| `Blockchain.Blockchain.Connect` | src/blockchain.cpp:636-712 | The verdict is the one the old tables dictate and the new tables are those the verdict prescribes |
| `Blockchain.Blockchain.AcceptBlock` | src/blockchain.cpp:599-729 | Keeps the invariant; the verdict and the first change of the tables follow from the old tables, everything after is one decision about a waiting block at a time, and once the block has work every pooled block that waited for it is decided about again; the active chain changes only by recorded switches; a pinned checkpoint and everything below it stay; a block of a valid chain is not lost and extends the tip when it was the missing one |
| `Blockchain.Blockchain.AcceptAt` | src/blockchain.cpp:599-729 | The recursion over parked children ends, because the chain of headers above the block grows inside the known ones |
| `Blockchain.Blockchain.ConnectBlock` | src/blockchain.cpp:290-311 | A block that does not name the tip's link hash is refused without effect; any other gets the verdict of acceptance |
| `Blockchain.Blockchain.DiagnoseTipCandidate` | src/blockchain.cpp:127-207 | In every reachable state: while the tip's height file holds the tip, the answer is "valid" if and only if the stateless checks pass and the whole path plus the block replays, and any other answer names a check that fails; otherwise every block on the tip is called stale and nothing called valid is a valid extension |
| `TipExtension.WrongParentMisjudges` | src/blockchain.cpp:130-139 | With another parent on file, or none, no valid extension is recognised and whatever is called valid is none |
| `TipExtension.MissingParentAccepts` | src/blockchain.cpp:132-150 | The failing input: with no file for the tip a block without parent and without proof of work is called valid |
| `Blockchain.NoTipFileAccepts` | src/blockchain.cpp:127-207 | The same on any consistent node, where replaying the path with that block fails |
| `Blockchain.Blockchain.PinCheckpointToTip` | src/blockchain.cpp:209-214 | The checkpoint is the tip and pinned; the invariant stays |
| `Blockchain.Blockchain.ClearCheckpointPin` | src/blockchain.cpp:216-222 | The checkpoint rolls again from two blocks below the tip; the invariant stays |
| `TipExtension.ExtensionIsCheck` | src/blockchain.cpp:127-207 | Replaying the active path plus a block succeeds exactly when the path replays and the block passes its checks against the tip's outputs |
| `ForkChoice.MatchKeepsPrefix` | src/blockchain.cpp:1203-1208 | A candidate that matches the checkpoint shares the active path up to it |
| `ForkChoice.MatchBoundsReorg` | src/blockchain.cpp:689-703 | Without a pin, a candidate that matches the checkpoint rolls back at most two blocks |
| `ForkChoice.GuardsEquivalent` | src/blockchain.cpp:689-703 | Without a pin and from height two on, matching the checkpoint and rolling back at most two blocks are the same condition; below, every candidate passes the depth guard |
| `ForkChoice.SwitchIsOk` | src/blockchain.cpp:678-712 | A candidate with more work that passes the checkpoint makes a legal switch |
| `Blockchain.VerdictWeighs` | src/blockchain.cpp:672-715 | A new valid candidate outweighs the tip if and only if it becomes the tip or a guard holds it back |
| `Work.WorkIsHashes` | src/blockchain.cpp:313-327 | Work times the number of digests that meet the target is the largest such multiple below 2^512; bits that are not canonical or not legal count for nothing |
| `Work.SmallerTargetMoreWork` | src/blockchain.cpp:313-327 | A smaller target never has less work, and half the target has at least twice the work |
| `Work.HarderSiblingWins` | src/blockchain.cpp:672-712 | Of two valid children of one parent, the one with at most half the target replaces the other as the tip, unless the checkpoint is at the tip or reorganisations are forbidden |
| `Work.EasierSiblingStays` | src/blockchain.cpp:672-712 | One with the same or an easier target stays on the side |
| `ForkChoice.RunWorkGrows` | src/blockchain.cpp:678-712 | Over a run every switch raises the tip's work above that of all chains given up before, and the first block never changes |
| `ForkChoice.NoChainReturns` | src/blockchain.cpp:678-712 | A chain that was given up never becomes active again |
| `Effects.EffectProgress` | src/blockchain.cpp:599-729 | Every verdict is a legal change of the active chain and respects a pinned checkpoint |
| `Effects.SwitchKeepsGuarded` | src/blockchain.cpp:544-597 | A switch to a matching candidate keeps every block up to the checkpoint active |
| `Delivery.CheckedChainHasWork` | src/blockchain.cpp:313-327 | When proof of work is checked every block of a valid chain after the first adds work |
| `Delivery.JudgeSwitch` | src/blockchain.cpp:678-712 | The block right above the tip of a partly delivered valid chain becomes the tip |
| `Delivery.DeliveryStep` | src/blockchain.cpp:599-729 | Handing in any block of the chain keeps the picture: a prefix is active, everything else known waits under its parent |
| `Delivery.SaturatedIsComplete` | src/blockchain.cpp:713-729 | If no gap is left above the tip and every block is known, the whole chain is active |
| `Runs.Step` | src/blockchain.cpp:209-222 | One call of any kind keeps the invariant; the active path changes only together with a recorded switch |
| `Runs.Run` | src/blockchain.cpp:599-729 | The same for every sequence of calls with any store failures; while a pin stays, the checkpoint's block and all below it stay active |
| `Runs.NodeSupply` | src/utxo.cpp:76-133 | At any time the node's outputs are worth at most the rewards of its active chain |
| `Runs.DeliverAll` | src/blockchain.cpp:599-729 | A valid chain delivered to a node in any order, with repeats, ends up active as a whole |
| `Runs.DeliverToNew` | src/blockchain.cpp:228-288 | The same for a new node, whose outputs are then the replay of the chain |
| `Runs.DeliverInAnyOrder` | src/blockchain.cpp:599-729 | Two new nodes that get the same valid chain in different orders agree on tip, height map and outputs |
| `HeaderSync.BlockLocator` | src/blockchain.cpp:778-793 | The entries are the active blocks at heights that start at the tip and step back by one ten times and then by doubling steps, ending with the first block |
| `HeaderSync.LocatorDescends` | src/blockchain.cpp:778-793 | Locator heights descend strictly |
| `HeaderSync.LocatorReachesFirstBlock` | src/blockchain.cpp:778-793 | With 32 entries the first block is reached if and only if the tip is at most 2^22 + 8 |
| `HeaderSync.HeadersAfterLocator` | src/blockchain.cpp:795-821 | The answer is the run of filed headers after the first locator entry with a listed height, up to the tip, the limit or the first missing file |
| `HeaderSync.FiledIsSegment` | src/blockchain.cpp:815-819 | If the files that exist are honest, the run is the beginning of the piece of the active path, cut at the first missing file, and all of it if none is missing |
| `HeaderSync.AnswerGetHeaders` | src/network.cpp:3590-3609 | A locator of more than 64 entries is an offence; any other one is answered with the headers on file above the first entry that is known, at most 2000 and none after a missing file |
| `HeaderRequests.AnswerRequest` | src/network.cpp:3568-3621 | Any payload is answered: eight bytes as a height, other bytes as a locator, with the exact faults for an unreadable count, a count above 64 and missing bytes |
| `HeaderRequests.TruncatedExact` | src/network.cpp:3588-3608 | A payload is found truncated if and only if it is not eight bytes long, its count is at most 64, and fewer than 64 bytes follow for each entry |
| `HeaderRequests.RequestComesBack` | src/network.cpp:3356-3370 | A written locator of at most 64 entries is understood as itself, never as a height; a longer one is found too long |
| `HeaderRequests.Exchange` | src/network.cpp:3356-3389 | What one node writes, another answers as if it had been handed the locator |
| `HeaderSync.ReceiveHeaders` | src/network.cpp:3715-3760 | A batch is held against the peer if and only if it is too long, does not connect or is not continuous; the wanted blocks are those not yet stored, and the inferred height is exact |
| `HeaderSync.PassesIfConnects` | src/network.cpp:3728-3754 | A batch off the responder's active path passes all checks if and only if it is empty, starts at the first block, or the asker can resolve the active header just below its start |
| `HeaderSync.ResolvesIfKnown` | src/blockchain.cpp:731-736 | A link resolves if and only if its header is known |
| `HeaderSync.SharedBatch` | src/network.cpp:3715-3760 | A batch off the responder's path after a shared block passes all checks and its height is inferred correctly |
| `HeaderSync.RebuildListsSides` | src/blockchain.cpp:1006-1029 | Only the active path is listed if and only if no block beside it is; after a rebuild one such block with work and a parent breaks it |
| `SideListing.SideEntryMisleads` | src/blockchain.cpp:795-821 | The failing instance, in two states that satisfy the node's invariant, with validated branches: a listed side entry moves the start past the fork, and the batch passes if and only if the asker knows the active header below it |
| `SideListing.SideSync` | src/network.cpp:3715-3754 | Two nodes in these states that exchange locator and headers come to that outcome |
| `HeaderSync.HonestSync` | src/network.cpp:3356-3370 | For any two nodes the locator is never held against the asker, and the batch is held against the responder exactly when it fails the checks; with honest files exactly when it does not connect; never, if moreover only the active path is listed, and then the inferred height is the true one |
| `Mempool.Mempool.AddTransaction` | src/mempool.cpp:30-183 | Keeps the pool's invariant; status and first state follow from the pool before, and everything after is one orphan at a time taken out and offered again; the recursion ends |
| `Mempool.Mempool.Insert` | src/mempool.cpp:150-183 | Adds one entry; fee order, byte total and outpoint index stay exactly those derived from the pool |
| `Mempool.Mempool.Remove` | src/mempool.cpp:190-204 | Removes exactly one entry from all indexes |
| `Mempool.Mempool.RemoveTransaction` | src/mempool.cpp:185-188 | Removes one entry; orphans and invariant stay |
| `Mempool.Mempool.TrimToLimits` | src/mempool.cpp:368-375 | Evicts the lowest fee rates first, only as many as needed, until both limits hold; every kept transaction pays at least as much per byte as every evicted one, up to the rounding of rates, and at equal sizes at least as much |
| `Mempool.Mempool.AddOrphan` | src/mempool.cpp:393-408 | The new orphan comes last, the oldest one goes if there were 256, and all three tables say so |
| `Mempool.Mempool.RemoveOrphan` | src/mempool.cpp:377-391 | The orphan and all its waits are gone from all three tables, nothing else |
| `Mempool.Mempool.ProcessOrphansForParent` | src/mempool.cpp:410-427 | Afterwards no orphan waits for a pooled parent, and all changes are a chain of legal offers of single orphans |
| `Mempool.CascadePromotes` | src/mempool.cpp:410-427 | Trying orphans again brings nothing into the pool that was not pooled or an orphan |
| `Mempool.OrphanFate` | src/mempool.cpp:410-427 | No orphan is lost: one that is gone was offered to the pool as it then was and was pooled or turned down for a reason |
| `Mempool.Mempool.ExpireOldTransactions` | src/mempool.cpp:298-323 | Keeps exactly the entries and orphans that are not older than the limit |
| `Mempool.Mempool.Clear` | src/mempool.cpp:277-286 | The empty pool |
| `PoolIndexes.NoDoubleSpend` | src/mempool.cpp:335-342 | No two pooled transactions share an input, by the outpoint index |
| `PoolIndexes.RateIsFeePerKilobyte` | src/mempool.cpp:162-166 | For fees whose thousandfold fits 64 bits the rate is 1000 * fee / size, rounded down |
| `PoolIndexes.LessOutpays` | src/mempool.cpp:162-167 | Of two transactions the later in the order pays at least as much per byte, up to rounding, and at equal sizes at least as much |
| `PoolIndexes.RelayFee` | src/mempool.cpp:121-122 | The least fee is one unit per byte, counted in started thousands of bytes |
| `PoolIndexes.IndexedWith` | src/mempool.cpp:150-183 | Adding an entry to all indexes keeps them exactly derived from the pool |
| `PoolIndexes.IndexedWithout` | src/mempool.cpp:190-204 | So does removing one |
| `PoolIndexes.OrphansWith` | src/mempool.cpp:393-408 | A new orphan keeps the orphan tables consistent |
| `PoolIndexes.OrphansWithout` | src/mempool.cpp:377-391 | So does removing one, also from the set that is about to be retried |
| `PoolIndexes.OrphansGrow` | src/mempool.cpp:172-183 | A newly pooled transaction makes exactly the orphans that wait for it due |
| `Admission.AssessTransaction` | src/mempool.cpp:38-170 | The screening, the resolution of inputs against the chain and the pool, and the fee test give the assessment of the pure rule |
| `Admission.FitMeans` | src/mempool.cpp:38-170 | A fitting transaction is new, has distinct inputs that nobody else in the pool spends, all sources found and mature, signatures good, and a fee of at least the relay minimum |
| `Admission.FitApplies` | src/mempool.cpp:66-160 | A fitting transaction that spends unspent outputs only applies in the next block, at the fee the pool assessed, exactly if it does not pay out more than it spends in 64-bit sums; it does whenever its inputs sum to less than 2^63 |
| `Selection.ApplyMono` | src/utxo.cpp:76-133 | What can be applied to some outputs can be applied to more, with the same fee |
| `Selection.FailureShrinks` | src/mempool.cpp:234-258 | A failed application only removes outputs, and the transaction still fails afterwards |
| `Selection.AfterCoinbase` | src/main.cpp:1341-1351 | Transactions chosen on the tip's outputs can be applied after the coinbase as well |
| `Selection.SelectMineable` | src/mempool.cpp:216-261 | The chosen transactions apply in order and stay in the budget; every other one does not fit or fails on the final outputs; under a fixed pricing the choice is determined: going round the offered list from the one chosen last, the next is the first that is left, fits and applies |
| `Selection.Pass` | src/mempool.cpp:230-258 | One pass keeps this picture; without progress everything left over does not fit or fails |
| `Template.OrderedEntries` | src/mempool.cpp:206-214 | The pool's entries from highest to lowest fee rate, each once; who comes first pays at least as much per byte, up to rounding, and at equal sizes at least as much |
| `Template.GetMineableTransactions` | src/mempool.cpp:216-261 | The selection on the pool in fee order, so that the dearest that is left, fits and applies comes next in every round |
| `Template.BuildTemplate` | src/main.cpp:1306-1354 | The block names the parent in the tip's file, or none, carries the next bits and the reward, then the chosen transactions, and the pool is exhausted |
| `Template.TemplateTimeValid` | src/main.cpp:1312-1316 | The template's time passes the timestamp rules if and only if the parent's time can still be exceeded and is not too far ahead of the clock |
| `Template.TemplateIsValid` | src/main.cpp:1306-1354 | With any nonce the template on the tip extends the active path to a valid path if and only if that path replays, the parent's time fits, proof of work passes or is skipped, and reward plus fees, summed in 64 bits, is not less than the reward; nothing is asked of the amounts |
| `Template.FeesFitMeans` | src/blockchain.cpp:464-487 | That fee condition holds if and only if the 64-bit sum of the fees is not negative and leaves room for the reward |
| `Template.SmallSumsFit` | src/main.cpp:1341-1351 | It holds when pooled outputs add up to less than 2^62 per transaction and the node's outputs are non-negative and within the declared supply |
| `Template.UnfitTemplateFails` | src/blockchain.cpp:464-487 | When it does not hold, the template extends the active path at no time and with no nonce, because the coinbase overpays |
| `WrappingFees.SimpleAssessed` | src/mempool.cpp:38-170 | A new standard transaction that spends one unspent output is taken or refused by its 64-bit fee alone, whatever its outputs add up to |
| `WrappingFees.WrappedSpendMints` | src/transaction.cpp:135-150 | A transaction with four outputs of 2^62 enters the pool at the fee of its whole input, and applying it brings in 2^64 |
| `WrappingFees.MintingTemplate` | src/main.cpp:1306-1354 | A template with that transaction is valid like any other and brings in 2^64 beside its reward |
| `WrappingFees.PairIsPooled` | src/mempool.cpp:38-175 | A pool with room takes two transactions whose outputs of 2^62, 2^62 and 2^61 wrap around, each at a fee above 2^62 |
| `WrappingFees.PairTemplateFails` | src/main.cpp:1306-1354 | A template with those two is refused at any time, with any nonce and without proof of work, because their fees sum to a negative number and the coinbase overpays |
| `WrappingFees.TemplateOfPair` | src/main.cpp:1306-1354 | On a pool of exactly these two the node builds such a template, in whatever order they are picked and whatever is on file, unless the coinbase outpoint is taken or the coinbase nearly fills the block |
| `Template.UnfiledTemplateFails` | src/main.cpp:1310-1315 | A template on any other parent, or on none, extends the active path at no time |
| `Keccak.PermuteInPlace` | src/powminer_main.cpp:220-255 | The in-place loops compute the permutation KECCAK-f of section 3.3 of FIPS 202 |
| `Keccak.RotationTable` | src/powminer_main.cpp:207-213 | The table of rotation offsets is the one Algorithm 2 of FIPS 202 walks through |
| `Keccak.RoundConstantTable` | src/powminer_main.cpp:193-205 | The table of round constants is the one that Algorithms 5 and 6 of FIPS 202 generate with the feedback register |
| `KeccakSteps.StepsInCoordinates` | src/powminer_main.cpp:220-255 | Theta, rho, pi and iota move and add lanes as sections 3.2.1 to 3.2.3 and 3.2.5 of FIPS 202 say in columns and rows |
| `KeccakSteps.ChiInCoordinates` | src/powminer_main.cpp:245-251 | Chi adds to a lane the bits of the lane two columns to the right that are not in the lane one column to the right, per section 3.2.4 of FIPS 202 |
| `KeccakSteps.RotationDirection` | src/powminer_main.cpp:207-218 | Every rotation in use moves the lowest bit up and the highest bit around |
| `KeccakSteps.LaneBytes` | src/powminer_main.cpp:257-280 | Lanes are read and written with their lowest byte first |
| `KeccakSteps.PaddingBits` | src/sha3_512.hpp:99-109 | The padding of a message is the bits 01, a one, as few zeros as fill a block of 576 bits, and a one |
| `Sha3.PermuteLane` | src/powminer_main.cpp:319-356 | Permuting four states side by side permutes each of them |
| `HeaderHash.ShortcutIsSha3` | src/powminer_main.cpp:257-280 | Finishing from the cached state of the first 72 bytes is SHA3-512 of all 80 bytes, per sections 5.1 and 6.1 of FIPS 202 |
| `HeaderHash.ShortcutWithNonce` | src/powminer_main.cpp:257-280 | The same with the nonce bytes exchanged |
| `HeaderHash.FinalizeScalar` | src/powminer_main.cpp:266-280 | The scalar finish computes that hash |
| `HeaderHash.FinalizeBatch4` | src/powminer_main.cpp:361-392 | The vector finish computes it for four nonces at once |
| `HeaderHash.PreparePrefixState` | src/powminer_main.cpp:257-264 | The cached state is that of the first 72 bytes |
| `Miner.FirstDifferenceDecides` | src/powminer_main.cpp:158-181 | The first differing byte decides the comparison of big-endian numbers |
| `Miner.HashMeetsTargetScalar` | src/powminer_main.cpp:110-113 | True if and only if the hash is at most the target as a number |
| `Miner.HashMeetsTargetVector` | src/powminer_main.cpp:158-181 | The same for the 32-byte compare with a mask |
| `Miner.ScanUnique` | src/powminer_main.cpp:115-143 | The outcome of a naive scan is unique |
| `Hasher.Sha3Hasher.Update` | src/sha3_512.hpp:91-95 | Takes bytes in any pieces; refuses once finished |
| `Hasher.Sha3Hasher.Finalize` | src/sha3_512.hpp:99-109 | Gives SHA3-512 of everything taken, once |
| `Miner.SearchScalar` | src/powminer_main.cpp:115-143 | Copying the hasher of the first 76 bytes and adding one nonce at a time gives the outcome of the naive scan |
| `Miner.RunPortableJob` | src/powminer_main.cpp:654-673 | So does the worker that builds that hasher |
| `Miner.UnlimitedEnds` | src/powminer_main.cpp:126-140 | A search without limit ends if and only if one of the first 2^32 nonces is a hit |
| `Miner.UnlimitedFinds` | src/powminer_main.cpp:126-140 | Without limit the outcome is the first hit |
| `Miner.SearchFast` | src/powminer_main.cpp:394-438 | So does the search in batches of four |
| `Miner.RunWorkerJob` | src/powminer_main.cpp:440-473 | So does the worker in chunks of 4096, with and without limit: same flag, nonce, hash and iteration count as hashing whole headers one by one |
| `MiningRound.RoundDisjoint` | src/main.cpp:2442-2456 | No nonce is tried twice in a round if and only if threads times limit is at most 2^32 |
| `MiningRound.WorkerLimit` | src/main.cpp:2433-2438 | The limit is positive, at most 250000, and covers the remaining iterations unless the chunk bound cuts it |
| `MiningRound.MineRound` | src/main.cpp:2442-2484 | A reported nonce meets the target; otherwise none of the next threads times limit nonces does, all were counted, and the seed moves on by that many |
| `MinedBlock.HitIsCheckPow` | src/block.cpp:186-193 | The byte comparison on the serialized header succeeds if and only if the node's check of the header with that nonce does |
| `MinedBlock.MineTemplate` | src/main.cpp:2426-2476 | A round on a template gives a block that passes the check of proof of work and extends the active path to a valid path if and only if time and fees fit, or none of the nonces tried passes the check |
| `TipSwitch.ExtensionSwitches` | src/blockchain.cpp:630-712 | A new block that extends the active path to a valid path with more work is admitted and, once stored, is the tip on top of all that was active |
| `TipSwitch.ExtensionRefused` | src/blockchain.cpp:599-685 | A new block on the tip that does not make the active path a longer valid one is refused or found invalid, is not kept, and leaves the active chain as it is |
| `Submission.SubmitMined` | src/main.cpp:2469-2476 | A template whose nonce passes the node's check, handed to that node with reliable writes, new and within the limits, becomes its tip if and only if its fees fit; otherwise the active chain stays and the block is not kept |
| `Submission.MineBlock` | src/main.cpp:2426-2476 | One round from end to end, template, search and submission: under the listed circumstances, none of which is about amounts, a find becomes the tip if and only if its fees fit, and without one no nonce of the round passes the node's check |
| `Merkle.ComputeMerkleRoot` | src/block.cpp:129-160 | The in-place level loop computes the recursive root |
| `Merkle.SameRootSameLeaves` | src/block.cpp:129-160 | Two lists have the same root if and only if they become the same list when blocks are filled up as the level loop does |
| `Merkle.SameBlockRoot` | src/block.cpp:129-160 | The same for lists of transactions |
| `Merkle.RootOfHalves` | src/block.cpp:129-160 | The root of a list whose length is a power of two is the hash of the roots of its halves, left before right |
| `Merkle.LeavesKeepRoot` | src/block.cpp:129-160 | A list and the same list filled up to a power of two have the same root |
| `Merkle.RootBinds` | src/block.cpp:129-160 | Among lists of one length the root determines the list |
| `Merkle.RepeatedLastSameRoot` | src/block.cpp:138-140 | Repeating the last element of an odd list leaves the root unchanged: lists of different length can share a root |
| `Wire.BlockThen` | src/block.cpp:162-184 | Reading a written block followed by any bytes gives the block and exactly those bytes |
| `Wire.HeaderThen` | src/block.cpp:92-124 | The same for headers |
| `Wire.TxThen` | src/transaction.cpp:95-129 | The same for transactions |
| `Wire.VarintThen` | src/serialization.hpp:34-59 | The same for every width of length prefix |
| `Wire.HeaderLayout` | src/block.cpp:92-107 | The 80 bytes of a header one by one: version, parent, merkle root, time, bits, nonce; integers lowest byte first, hashes highest byte first |
| `Wire.TxLayout` | src/transaction.cpp:32-110 | Where version, inputs, outputs and lock time of a transaction stand, and the fields of inputs and outputs, byte by byte |
| `Wire.BlockLayout` | src/block.cpp:162-172 | Header, number of transactions, then each transaction with its length in front |
| `Wire.VarintLayout` | src/serialization.hpp:34-47 | One byte below 253, otherwise a marker and two, four or eight bytes, lowest first |
| `WireIO.Buffer.WriteWholeBlock` | src/block.cpp:162-170 | The writer appends exactly the block's bytes |
| `WireIO.Cursor.ReadWholeBlock` | src/block.cpp:172-184 | The reader gives the parsed block and moves past it, or reports that bytes are missing |
| `WireIO.RoundTrip` | src/block.cpp:162-184 | Writer and reader together give back the block and leave the bytes behind it |
| `Base58.EncodeBytes` | src/base64.cpp:248-274 | The in-place long division computes the base 58 text |
| `Base58.DecodeText` | src/base64.cpp:276-308 | The in-place multiply-and-carry computes the bytes, or reports a foreign letter |
| `Base58.DecodeEncode` | src/base64.cpp:248-308 | Every byte string comes back |
| `Base58.EncodeDecode` | src/base64.cpp:248-308 | Every text of the alphabet comes back |
| `Base58.SameNumber` | src/base64.cpp:248-274 | The text in base 58 is the number of the bytes in base 256, with a leading 1 per leading zero byte |
| `Base58.Alphabet` | src/base64.cpp:248-308 | The alphabet is the digits and letters in ASCII order without 0, I, O and l |
| `BitStrings.ConvertBits` | src/base64.cpp:89-114 | The accumulator loop regroups the bit stream, or fails exactly when a value is too wide or the rest is not a zero padding |
| `BitStrings.EightFiveEight` | src/base64.cpp:89-114 | Regrouping bytes into fives with padding and back without gives the bytes back |
| `Bech32.ComputePolymod` | src/base64.cpp:48-60 | The loop computes the checksum polynomial's remainder |
| `Bech32.ChecksumVerifies` | src/base64.cpp:71-87 | The generated checksum always verifies (section "Checksum" of BIP 173) |
| `Bech32.TapsAreMultiples` | src/base64.cpp:48-60 | The five taps are the multiples of the generator polynomial of BIP 173 over the field of 32 elements |
| `Bech32.KnownChecksum` | src/base64.cpp:62-87 | The checksum of the first valid string in BIP 173 comes out |
| `Bech32.DecodeEncode` | src/base64.cpp:116-159 | What is encoded under a lower-case prefix is decoded again |
| `Base64.EncodeBytes` | src/base64.cpp:161-198 | The buffer loop computes the base 64 text |
| `Base64.DecodeEncode` | src/base64.cpp:161-245 | Every byte string comes back |
| `Base64.GroupIsNumber` | src/base64.cpp:161-198 | Three bytes and their four letters are the same number, read from the front; short groups are filled up with zeros |
| `Base64.Alphabet` | src/base64.cpp:161-245 | The alphabet is that of section 4 of RFC 4648 |
| `Base64.HexBack` | src/base64.cpp:310-351 | Hexadecimal text of non-empty bytes is valid and comes back |
| `Base64.HexPlaces` | src/base64.cpp:310-351 | The higher hexadecimal digit of each byte comes first |
| `Address.FormatsAgree` | src/base64.cpp:353-405 | The base 64, base 58 check, hexadecimal and Bech32 forms of a 20-byte payload have the same canonical text; no branch captures another's form |
| `Address.ConversionsKeepAddress` | src/base64.cpp:407-441 | Converting an address to any format keeps what it stands for |
| `Mnemonic.EntropyToMnemonic` | src/bip39.cpp:61-93 | The bit loops compute the phrase, or refuse an illegal length |
| `Mnemonic.PhraseIsNumber` | src/bip39.cpp:61-93 | The indices of the phrase's words, read in base 2048, are the entropy read in base 256 followed by the leading bits of the first hash byte, one for every four bytes of entropy |
| `Mnemonic.MnemonicToEntropy` | src/bip39.cpp:95-134 | The bit loops compute the entropy, or refuse an illegal count, an unknown word or a wrong checksum |
| `Mnemonic.EntropyComesBack` | src/bip39.cpp:61-134 | The phrase of legal entropy leads back to the entropy |
| `Mnemonic.PhraseComesBack` | src/bip39.cpp:61-134 | The words of an accepted phrase are those of the entropy it leads to |

## Left out

- Loading and saving of the index, headers, chainstate and checkpoint files, and the repairs run at start: disk format and recovery. A new node starts with an empty store.
- Clearing of the pool and logging on a switch: no part of the chain's tables.
- Locks and threads: each public method is one atomic step. Within one call of block acceptance the clock stands still; between calls it does not go back.
- Hash functions are parameters. The chain results assume that the link hash is injective and never zero, which is possible because hashes are unbounded numbers there. The mining results assume that the digest is SHA3-512 for the nonces of one header only (`MinedBlock.HashesNonces`), because SHA3-512 cut to 256 bits cannot be injective on all headers.
- Signature checks are a parameter of the transaction, the input and the output's script; scripts are not run.
- Runs.DeliverInAnyOrder: every block after the first must add work, which follows from validity when proof of work is checked (`Delivery.CheckedChainHasWork`); with the check switched off it is a condition. Only blocks of the one chain are delivered.
- Blockchain.AcceptBlock: that a waiting block does become part of the chain is stated for the blocks of one valid chain; of arbitrary waiting blocks it is stated that each is decided about again by the same rules.
- Blockchain.DiagnoseTipCandidate: when proof of work is asked for more strictly than on the active path, the path itself may no longer replay; the contract then speaks of the path's validity as a separate condition.
- Supply.SupplyBound: asks for distinct inputs, non-negative outputs and one coinbase in each block, because validation does not check them; Conservation.PathTotal has no such condition.
- HeaderSync.HonestSync: that nothing is ever held against the responder asks for honest files, for only the active path to be listed, and that no identifier is a link hash, since both are looked up in one table order; without these the exact outcome is stated instead.
- HeaderSync.AnswerGetHeaders: speaks of a parsed locator; `HeaderRequests.AnswerRequest` has truncated locators and the old eight-byte height request. How many points a fault costs the peer is not part of the model.
- HeaderSync.ReceiveHeaders: works on parsed headers; the byte layout of the message and its truncation before `count` headers are not part of it.
- Template.TemplateIsValid: asks that the clock is in the 32-bit range and that the coinbase outpoint is free. The budget covers transaction bytes only, as in the original, so the limits on the size of the whole block and on the number of transactions are not promised. Submission.SubmitMined and Submission.MineBlock ask for these limits and for an identifier the node does not know yet.
- Worker processes that fail are not part of the model. A search without limit is modelled for the case that it ends.
- The round constants of the permutation are those of the original's table; the shift register that generates them in FIPS 202 is not modelled. The rotation offsets are derived.
- The incremental hasher is a foreign library in the original; the model gives it the sponge of FIPS 202, and its allocation failures are not part of the model.
- Wire integers: putting bytes together by shifting and or-ing is modelled as multiplying and adding, which is the same for bytes.
- The table of orphans by parent is a set of pairs, so the order in which the orphans of one parent are tried is left open; the results hold for every order. Orphan and entry times are arguments.
- Walking the parent links pushes to a vector and reverses it; the model puts each block in front.
- White space and letter case are those of ASCII. Deriving a seed from a mnemonic is a foreign call.
- `undo_transaction`, which does nothing useful in the original, balances and listing of outputs, scripts, wallets, chat, mail, storage receipts, RPC, sockets and the user interface.
- Signed 64-bit sums wrap in two's complement, as common compilers make them; the C++ standard leaves their overflow undefined.
