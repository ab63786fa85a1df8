# Proofs about the pod's money, tokens, writes and caches

The server keeps a paid-API ledger with a liquidity pool, mints and moves hash-linked tokens carried by
Bitcoin outputs, serialises conditional writes to resources, and remembers what it has accepted, resolved
or reserved. This project models those parts in Dafny and proves what they promise. `dafny verify
dfyconfig.toml` checks all of it.

| part | modules |
|---|---|
| ledger, pool, deposits, withdrawals | `WebLedger`, `LiquidityPool`, `LiquidityLaws`, `LiquidityOutcomes`, `Coins`, `DepositScan`, `DepositOutcomes`, `UtxoSelection`, `WithdrawalOutcomes`, `PayEngine` |
| canonical JSON, token trails | `Jcs`, `JcsLaws`, `JcsExact`, `Mrc20`, `TokenBalances`, `TokenTrail`, `TokenTrailLaws`, `TokenTexts` |
| address and transaction encodings | `BitGroups`, `Polymod`, `Bech32m`, `Bech32mVectors`, `TxWire`, `TxBuild` |
| writes to resources | `WriteQueue`, `ConditionalWrites` |
| replay caches, lookup caches, indexes, reserved paths | `ReplayCache`, `LruCache`, `PubkeyIndex`, `Paths`, `Reservations` |
| JavaScript objects, strings and 32-bit operators | `OrderedMap`, `JsText`, `JsBits` |

Code that changes state is a class or a loop whose `ensures` equates the new state with a function of the
old one. The laws are lemmas about those functions, stated over every state or every run of requests. What
each request answers and leaves is also said by the source's conditions alone, with its constants spelled
out, and what the encoders write is said by readers that share no part with them.
A JavaScript object or `Map` is a sequence of pairs in insertion order, and a string a sequence of UTF-16
code units. The 32-bit operators wrap as in JavaScript.

Where a promise fails in a corner, the code is modelled as it is, a lemma shows the corner, and another
says exactly when the promise holds:

- a transfer with a negative amount passes the balance check (`TokenBalances.NegativeAmountOverdraws`),
  and tokens sent to a name every object inherits, like "constructor", turn into text
  (`TokenBalances.InheritedNameTakesTokens`); `TokenBalances.NonNegativeIff` and
  `TokenBalances.TotalKeptIff` say when balances stay numbers, non-negative and of one sum;
- a named write to an agent with a negative string amount turns the default balance into 0
  (`WebLedger.NegativeTextIsLost`, `WebLedger.DefaultReadOverNamedWrite`), and a write in 'sat' stays out
  of the default balance while a 'satoshi' cell stands first (`WebLedger.SatHidesBehindSatoshi`,
  `WebLedger.SatoshiAliasesDefault`);
- a claim credits its output without a deposit key. A scan then finds it cached and never credits it
  (`DepositScan.ClaimedThenScanned`, `DepositScan.UnkeyedNeverCredited`); but an output that a crashed
  scan had credited and not cached is credited again by a claim (`PayEngine.ClaimAfterCrash`,
  `PayEngine.ClaimMovesGap`);
- each paid withdrawal leaves the pod owing 300 to 846 more than its coins cover, counting the coins a crash
  has kept out of the file, and nothing else does but such a claim (`PayEngine.RunMovesGap`);
- a PATCH does not look at If-Match when the resource is gone, so it can succeed after a DELETE with the
  same tag (`ConditionalWrites.PatchIgnoresIfMatchWhenMissing`, `ConditionalWrites.SecondSuccess`);
- a DPoP proof whose jti is an array or an object is accepted again as long as it verifies
  (`ReplayCache.CompositeProofTwice`, `ReplayCache.ProofTwiceIffComposite`);
- the CID cache stands in order of last touch exactly as long as every store finds its document absent or
  last (`LruCache.CidInOrderIff`), which lookups that do not overlap see to
  (`LruCache.OneAtATimeInOrder`) and overlapping ones may not (`LruCache.OverlapLosesOrder`);
- a reserved path refuses a query with a raw line terminator, which its path alone would not
  (`Reservations.LineFeedRefused`, `Reservations.QueryDoesNotMatter`). An HTTP request target holds none
  (section 3.2 of RFC 9112), and without one the path decides (`Reservations.PathDecides`);
- a plugin that reserves its own path again with more methods is not refused, and keeps the methods of
  its first reservation (`Reservations.FirstMethodsStay`).

## Model

| member | source | states |
|---|---|---|
| `WebLedger.Ledger.GetBalance` | src/webledger.js:92-105 | reads the first entry of the agent, in string or list form, by currency or by default |
| `JsText.ParseIntReads` | src/webledger.js:92-105 | an amount's text reads as the signed number after white space, up to the first other character, or as 0 |
| `WebLedger.Ledger.SetBalance` | src/webledger.js:114-141 | the entries after a write, in every form: in place, appended, migrated from string to list, or overwritten by a default write |
| `WebLedger.Ledger.Credit` | src/webledger.js:151-156 | the balance rises by the amount and is returned |
| `WebLedger.Ledger.Debit` | src/webledger.js:166-174 | succeeds exactly when the balance covers the amount; otherwise nothing changes |
| `WebLedger.Ledger.CreditOnce` | src/webledger.js:194-202 | credits exactly when the key is new, and records it in the same step |
| `WebLedger.NamedReadOverNamedWrite` | src/webledger.js:114-141 | a named write changes the written cell, and besides it only the 'satoshi' cell of an entry that was a string |
| `WebLedger.DefaultReadOverNamedWrite` | src/webledger.js:129-134 | the default balance survives a named write exactly when it was not a negative string amount |
| `WebLedger.NegativeTextIsLost` | src/webledger.js:129-134 | an agent with the string amount -5 has 0 by default after any write in another currency |
| `WebLedger.ReadOverDefaultWrite` | src/webledger.js:116-123 | a write without a currency sets the default balance and forgets the agent's named amounts |
| `WebLedger.SatoshiAliasesDefault` | src/webledger.js:96-100 | the default balance after a write in 'satoshi' or 'sat', in any ledger: the written amount exactly when no cell of the other name stands first; unchanged exactly when it does not show or writes what was there |
| `WebLedger.SatHidesBehindSatoshi` | src/webledger.js:96-134 | an agent with the string amount 100 keeps 100 by default after any 'sat' write |
| `WebLedger.PlainWriteChangesOneCell` | src/webledger.js:92-174 | the mixed ledger refines a map: a plain write changes one cell and nothing else that can be read |
| `WebLedger.TotalAfterWrite` | src/webledger.js:125-140 | the sum of a currency over all agents moves by what the written cell moves |
| `LiquidityPool.IsqrtIsRoot` | src/handlers/pay.js:1152 | the first shares are the exact integer square root of the product of the deposits |
| `LiquidityPool.NewShares` | src/handlers/pay.js:1149-1158 | shares computed by ratios and floors of reals are the integer quotients |
| `LiquidityPool.Fraction` | src/handlers/pay.js:1200-1203 | a withdrawal by a real fraction and a floor is the integer quotient |
| `LiquidityPool.SwapOutput` | src/handlers/pay.js:1259-1263 | the constant-product formula with fee 0.003 and a floor is an integer quotient |
| `LiquidityPool.PayFiles.Deposit` | src/handlers/pay.js:1163-1174 | both unchecked debits succeed, and ledger and pool change together |
| `LiquidityPool.PayFiles.AddLiquidity` | src/handlers/pay.js:1119-1184 | checks in order, then the deposit; refused requests change nothing |
| `LiquidityPool.PayFiles.RemoveLiquidity` | src/handlers/pay.js:1186-1227 | checks in order, then the withdrawal, deleting an empty share entry |
| `LiquidityPool.PayFiles.Trade` | src/handlers/pay.js:1278-1287 | the unchecked debit succeeds, and ledger and both reserves move together |
| `LiquidityPool.PayFiles.SwapRequest` | src/handlers/pay.js:1229-1302 | checks in order with slippage protection, then the trade |
| `LiquidityLaws.PayoutIsLargest` | src/handlers/pay.js:1259-1263 | a swap pays the largest integer that keeps the product after the fee |
| `LiquidityLaws.MintIsLargest` | src/handlers/pay.js:1153-1158 | a later deposit mints the most shares in proportion to both reserves |
| `LiquidityLaws.WithdrawalIsLargest` | src/handlers/pay.js:1194-1203 | a withdrawal pays the most in proportion to the shares removed |
| `LiquidityLaws.StepKeepsSound` | src/handlers/pay.js:1117-1287 | every request keeps balances non-negative, `lpShares` summing to `totalShares` without zero entries, k the product of the reserves and at least shares squared, reserves positive exactly when shares are |
| `LiquidityLaws.StepConserves` | src/handlers/pay.js:1117-1287 | every request keeps, per unit, all balances plus the reserve |
| `LiquidityLaws.StepKeepsWorth` | src/handlers/pay.js:1149-1287 | no request lowers the pool value per share |
| `LiquidityLaws.SwapGrowsK` | src/handlers/pay.js:1259-1287 | a swap that goes through makes k strictly larger |
| `LiquidityLaws.RunConserves` | src/handlers/pay.js:1117-1287 | the same sums, k at least shares squared and the positive reserves after any run |
| `LiquidityLaws.RunKeepsWorth` | src/handlers/pay.js:1117-1287 | value per share never falls over a run in which the pool is never emptied |
| `LiquidityLaws.SwapsNeverDrain` | src/handlers/pay.js:1259-1286 | swaps that leave one reserve no higher leave the other strictly higher |
| `LiquidityLaws.AddThenRemove` | src/handlers/pay.js:1149-1215 | removing at once what an add minted returns at most the deposit in each unit |
| `LiquidityOutcomes.SwapGoesIff` | src/handlers/pay.js:1229-1276 | a swap goes through exactly if the unit is one of the two, the pool has liquidity, the amount is positive and covered, and the largest payout that keeps the product is positive and at least `minReceived` when one is given |
| `LiquidityOutcomes.SwapMoves` | src/handlers/pay.js:1259-1302 | the trader's sold balance falls by the amount, the bought one rises by that payout, no other balance or share moves; a refused swap leaves both files |
| `LiquidityOutcomes.AddGoesIff` | src/handlers/pay.js:1119-1161 | an add goes through exactly if both amounts are positive and covered and the most shares in proportion to both reserves, or the root of the product in an empty pool, are positive |
| `LiquidityOutcomes.AddMoves` | src/handlers/pay.js:1149-1184 | the depositor pays both amounts and gets exactly those shares; nobody else's balance or shares move |
| `LiquidityOutcomes.RemoveGoesIff` | src/handlers/pay.js:1186-1203 | a removal goes through exactly if the pool has shares and those asked for, or all the agent has, are positive and held |
| `LiquidityOutcomes.RemoveMoves` | src/handlers/pay.js:1194-1227 | the holder gives up the shares and gets the most in proportion of both reserves; nobody else's balance or shares move |
| `DepositScan.KeyInjective` | src/handlers/pay.js:349 | different outpoints have different deposit keys |
| `DepositScan.ScanOutputs` | src/handlers/pay.js:333-354 | the loop over one address's outputs: skip what is cached, credit once, remember |
| `DepositScan.PayStore.Scan` | src/handlers/pay.js:315-371 | the files after a scan, with a crash before, between or after the two writes, or an explorer that throws |
| `DepositScan.PayStore.Claim` | src/handlers/pay.js:493-559 | refusals, the cache check, then the coin and the credit without a deposit key |
| `DepositScan.ScanExplained` | src/handlers/pay.js:320-369 | from any files, one scan changes the ledger by a log of new keys, each crediting the poller, in the chain's unit, with the value of one outpoint listed for it |
| `DepositScan.FinishedScanSettles` | src/handlers/pay.js:334-369 | a finished scan leaves every outpoint it saw cached and, when of value, credited exactly if it was not cached without its key before |
| `DepositScan.ScanKeepsSettled` | src/handlers/pay.js:334-369 | no scan, crashed or not, changes whether an outpoint is cached without its key |
| `DepositScan.RunCreditsOnce` | src/handlers/pay.js:315-371 | over any run of scans and crashes, from any files, balances are the start plus credits with distinct keys, none credited before, each to an agent whose poll listed the outpoint |
| `DepositScan.RunOutpointsDiffer` | src/webledger.js:176-202 | no outpoint is credited twice in a run |
| `DepositScan.RunThenScanSettles` | src/handlers/pay.js:334-369 | after any run of scans and crashes a finished scan credits what it sees exactly if that was not cached without its key at the start |
| `DepositScan.UnkeyedNeverCredited` | src/handlers/pay.js:334-369 | a coin of value cached without its key, as a claimed output is, is never credited by a scan |
| `DepositScan.ClaimedThenScanned` | src/handlers/pay.js:334-559 | an output is claimed and then listed by a scan: no key, no second credit |
| `DepositOutcomes.KeyText` | src/handlers/pay.js:349 | the key of output 7 of a transaction on btc is "btc:", its id and ":7" |
| `DepositOutcomes.ScanCaches` | src/handlers/pay.js:333-369 | a scan only adds coins, no outpoint twice, each an output listed for the agent with its value, script and chain, tweaked by the agent, unspent |
| `DepositOutcomes.RunCaches` | src/handlers/pay.js:333-369 | over any run of scans every coin is one of the first or an output listed for the agent of a poll |
| `DepositOutcomes.ClaimOutcome` | src/handlers/pay.js:493-559 | a claim succeeds exactly for an output of a known chain that pays the agent or the pod and is not cached; then the balance rises by its value, no other balance changes and its coin is added; a refusal changes nothing |
| `UtxoSelection.Select` | src/handlers/pay.js:826-853 | untweaked coins first, else the first tweak's coins, until the amount is reached |
| `UtxoSelection.ChoiceIsSound` | src/handlers/pay.js:816-856 | the chosen coins are different, unspent, of the chain and one key, none superfluous; they suffice exactly when one of the two groups does |
| `UtxoSelection.UtxoFile.Withdraw` | src/handlers/pay.js:808-903 | refusals in order; then the debit, which succeeds, inputs marked spent and change above dust added |
| `UtxoSelection.WithdrawalTakes` | src/handlers/pay.js:868-903 | a paid withdrawal takes amount, fee and at most 546 from the chain's coins, a refused one nothing |
| `UtxoSelection.WithdrawalDebits` | src/handlers/pay.js:808-897 | with the payment the balance, and the sum over all agents, fall by the amount, not below zero; a refused withdrawal owes what it owed |
| `UtxoSelection.NoCoinPaidTwice` | src/handlers/pay.js:816-903 | in any run of withdrawals, with coins found in between, no outpoint is spent by two payments, if outpoints differ at the start, found coins are not in the file yet and broadcast transactions are new |
| `WithdrawalOutcomes.ChoiceIsFirst` | src/handlers/pay.js:826-856 | the chosen coins are the first of one key, none left out, just enough; the pod's own key when its coins suffice, else the first tweak in the file |
| `WithdrawalOutcomes.WithdrawalOutcome` | src/handlers/pay.js:808-903 | each refusal and the payment by balance, coins and network, both ways; when paid exactly the inputs become spent, and what is left beyond the fee of 300 becomes output 1 of the pod's key if more than 546 |
| `PayEngine.ScanKeepsGap` | src/handlers/pay.js:315-371 | a scan, wherever it crashes, moves what agents are owed on a chain and what the coins, with the credits not cached yet, stand for by the same |
| `PayEngine.ClaimMovesGap` | src/handlers/pay.js:532-547 | a claim does the same, except that it credits a second time what a crashed scan had credited and not cached |
| `PayEngine.ClaimAfterCrash` | src/handlers/pay.js:343-547 | a scan crashes between its writes, the output is claimed, and 1000 received are 2000 owed |
| `PayEngine.WithdrawMovesGap` | src/handlers/pay.js:808-903 | a paid withdrawal on the chain leaves 300 to 846 more owed than held, any other withdrawal nothing |
| `PayEngine.StepMovesGap` | src/handlers/pay.js:315-1287 | every request keeps ledger, pool and keys in order and moves the gap between owed and held by this much only |
| `PayEngine.RunMovesGap` | src/handlers/pay.js:315-1287 | over any run of scans, claims, pool requests and withdrawals the gap grows by 300 to 846 per paid withdrawal, by what claims credited twice, and by nothing else |
| `JcsLaws.ParseJcs` | src/mrc20.js:32-37 | a reader recovers the canonical value from the output of `jcs` followed by any valid continuation |
| `JcsLaws.SortedIsUnique` | src/mrc20.js:35 | members in key order are determined by what the keys map to, so sorting leaves no trace of their insertion order; which order it is, `JcsExact.JcsReads` says |
| `JcsLaws.JcsIffSame` | src/mrc20.js:32-37 | two values have the same text exactly when they are the same up to the order of keys |
| `JcsExact.JcsReads` | src/mrc20.js:32-37 | reading the text gives the same value, in which every object's earlier keys are proper prefixes of the later or have the smaller code unit where they first differ |
| `JcsExact.StringText` | src/mrc20.js:33-36 | a string is written unit by unit between quotes, with the escapes of section 3.2.2.2 of RFC 8785 |
| `JcsExact.ObjectText` | src/mrc20.js:35-36 | braces, members in key order, commas and colons, no white space |
| `JcsExact.ArrayText` | src/mrc20.js:34 | brackets and commas, items in order |
| `JcsExact.WordTexts` | src/mrc20.js:33 | the words and a decimal number |
| `Mrc20.ChainFixedByLast` | src/mrc20.js:54-72 | with an injective hash, linked chains of one length that end in the same value agree throughout |
| `Mrc20.ChainFromGenesisFixed` | src/mrc20.js:54-72 | chains from a genesis are fixed by their last state, whatever their lengths |
| `Mrc20.DepositAcceptedIff` | src/mrc20.js:54-152 | a deposit is accepted exactly when both values are MRC20 states, one names the hash of the other and follows it in number, and some operation transfers a positive amount to the address |
| `TokenBalances.RemoveZeros` | src/token.js:331-334 | deleting zero balances while iterating leaves the others in order |
| `TokenBalances.MoveBalances` | src/token.js:318-334 | the balances after a transfer, in the order they are read and written, for every name, inherited ones included |
| `TokenBalances.TransferMoves` | src/token.js:318-334 | when balances stay numbers; then what sender and recipient lose and get, no other balance changing and no zero entry left |
| `TokenBalances.PlainTransferMoves` | src/token.js:318-334 | between names that are owned or not inherited the amount moves and the sum stays, also to oneself |
| `TokenBalances.TotalKeptIff` | src/token.js:318-334 | the balances stay numbers of the same sum exactly when both names read as numbers and what is taken is given |
| `TokenBalances.NonNegativeIff` | src/token.js:322-330 | after the balance check, balances stay numbers and non-negative exactly when both names read as numbers and the recipient can bear what it gets |
| `TokenBalances.NegativeAmountOverdraws` | src/token.js:322-330 | a negative amount passes the check and overdraws the recipient |
| `TokenBalances.InheritedNameTakesTokens` | src/token.js:328-329 | five tokens sent to "constructor" become text and leave the sum |
| `TokenTrail.TrailFile.MintToken` | src/token.js:245-306 | the trail after a mint, and every refusal in order; what they are, `TokenTexts.MintOutcome` says |
| `TokenTrail.TrailFile.TransferToken` | src/token.js:310-389 | the trail after a transfer, and every refusal in order; what they are, `TokenTexts.TransferOutcome` says |
| `TokenTrailLaws.LinkPasses` | src/mrc20.js:54-72 | a state that hashes its predecessor's text and counts on passes the link check |
| `TokenTrailLaws.DepositIsExact` | src/mrc20.js:101-152 | the proof of a transfer is worth the amount sent to its recipient and nothing to anyone else |
| `TokenTrailLaws.TransferKeepsSound` | src/token.js:317-386 | a transfer appends one linked state or changes nothing |
| `TokenTrailLaws.ReachableTrail` | src/token.js:249-386 | in every reachable trail states are numbered, linked, each the last one moved by the transfer it records, and have their canonical text; the carried amount is the voucher less 300 per state and above 546 |
| `TokenTrailLaws.ReachableSums` | src/token.js:318-334 | in every reachable trail all states sum to the supply exactly when every recorded transfer keeps the sum |
| `TokenTrailLaws.ReachableNonNegative` | src/token.js:317-334 | with positive amounts and names no object inherits, every reachable state has non-negative balances that sum to the supply |
| `TokenTrailLaws.TrailFixedByLastState` | src/token.js:336-349 | two trails that end in the same state share every state string |
| `TokenTexts.StoredTextsRead` | src/token.js:250-349 | in every reachable trail, reading a stored text gives an object with the profile, the predecessor's hash, number, ticker, name, 0 decimals, supply, every balance and every operation of its state |
| `TokenTexts.EqualTextsSameState` | src/token.js:336-349 | equal texts of any reachable trails stand for the same state |
| `TokenTexts.MintOutcome` | src/token.js:245-306 | a mint goes through exactly if the name is free, the voucher is found, is worth more than 846 and the network takes it; then one state numbered 0 after 64 zeros gives the supply to the issuer |
| `TokenTexts.TransferOutcome` | src/token.js:310-389 | a transfer goes through exactly if the sender's balance is not less than the amount, the output is found, is worth more than 846 and the network takes it; then one state is added that names its predecessor's hash and this transfer, carried by output 0 of the new transaction with 300 less |
| `TokenTexts.CarriedByLast` | src/token.js:299-386 | every reachable trail is carried by output 0 of the transaction of the last request that went through |
| `TokenTexts.StateHasRequest` | src/token.js:249-386 | every state of a reachable trail was made by one request that went through, and stays as it was made |
| `BitGroups.ConvertBits` | src/mrc20.js:210-220 | the loop with a wrapping 32-bit accumulator computes the digits of the whole bit string cut anew |
| `BitGroups.RegroupBound` | src/mrc20.js:212 | every output digit is below 2^to |
| `BitGroups.RegroupKeepsBits` | src/mrc20.js:213-219 | padding adds fewer zero bits than one digit |
| `BitGroups.RegroupRoundTrip` | src/mrc20.js:210-220 | regrouping with padding and back without returns the data |
| `BitGroups.PaddedNumber` | src/mrc20.js:210-220 | regrouped with padding, the digits spell the same number times the power of two that fills the last digit |
| `BitGroups.CutNumber` | src/mrc20.js:210-220 | regrouped without padding, the digits spell the number divided by a power of two |
| `Polymod.StepInjective` | src/mrc20.js:233-237 | one step maps different registers to different registers |
| `Polymod.FoldDelta` | src/mrc20.js:233-237 | a change of up to six symbols changes the register by exactly the changed bits |
| `Polymod.WindowChangesRegister` | src/mrc20.js:230-239 | a change within six neighbouring symbols changes the final register, whatever surrounds it |
| `Bech32m.HrpExpand` | src/mrc20.js:222-228 | high bits, a zero, low bits |
| `Bech32m.PolymodOf` | src/mrc20.js:230-239 | the loop on 32-bit integers computes the number of the 30-bit register |
| `Bech32m.Bech32mEncode` | src/mrc20.js:241-250 | the address: prefix, separator, letters of the symbols and of the checksum; the reader recovers prefix, version and program from it |
| `Bech32m.ChecksumPasses` | src/mrc20.js:244-246 | appending the six checksum symbols makes the Bech32m check pass |
| `Bech32m.WindowDetected` | src/mrc20.js:230-239 | symbols changed within a window of six make a passing check fail, at any length |
| `Bech32m.EncodingAccepted` | src/mrc20.js:241-250 | every address built is accepted by a reader of the format |
| `Bech32m.MistakeRefused` | src/mrc20.js:241-250 | an accepted address with up to six neighbouring data characters changed is refused |
| `Bech32m.ReadsNumber` | src/mrc20.js:210-250 | what the reader reads: the prefix before the last '1', the version by its letter's place in the table of BIP-173, and the program as the number the next letters spell in base 32 |
| `Bech32m.PlaceOf` | src/mrc20.js:23 | the letters stand where the table of BIP-173 puts them |
| `Bech32mVectors.ShortAddress` | src/mrc20.js:23-24 | "a1lqfn3a", published in BIP-350, is accepted: its nine symbols lead through the published generators to the published constant |
| `TxWire.ReadTxBytes` | src/token.js:159-173 | a reader of the witness format recovers every field of a transaction from its bytes |
| `TxWire.ReadVarIntOf` | src/token.js:61-65 | variable-length sizes read back |
| `TxBuild.WriteU32LE` | src/token.js:50-54 | four bytes by 32-bit shifts and masks are the little-endian digits, also above 2^31 |
| `TxBuild.WriteU64LE` | src/token.js:55-60 | eight little-endian bytes |
| `TxBuild.WriteVarInt` | src/token.js:61-65 | one byte or three; throws exactly above 65535 |
| `TxBuild.ReverseTxid` | src/token.js:66-70 | the bytes of the id, reversed in place |
| `TxBuild.ConcatBytes` | src/token.js:41-47 | the parts one after the other in a fresh array |
| `TxBuild.BuildTransaction` | src/token.js:117-174 | throws exactly for no inputs or an oversized count, script or signature; otherwise the hexadecimal text, which reads as the inputs and outputs asked for, with the signature of input i, and nothing else, as witness i |
| `TxBuild.BuiltReadsBack` | src/token.js:131-174 | reading the built text recovers every input id and index, output, the signature of each input, and the fixed version, sequence and locktime |
| `TxBuild.OneInOneOut` | src/token.js:50-173 | the bytes of a transaction with one input and one output, spelled out |
| `TxBuild.HexText` | src/token.js:30-32 | bytes as two lower-case digits each |
| `WriteQueue.Queues.Enter` | src/handlers/resource.js:922-931 | a call takes the tail it finds and becomes the tail |
| `WriteQueue.Queues.Resume` | src/handlers/resource.js:931-933 | a call whose predecessors are done starts to run |
| `WriteQueue.Queues.Finish` | src/handlers/resource.js:932-940 | released however it ended, 503 for a taken lock; the entry goes only if it is still this call's |
| `WriteQueue.OneHolder` | src/handlers/resource.js:920-941 | at most one call per key is between wake-up and release |
| `WriteQueue.ArrivalOrder` | src/handlers/resource.js:926-931 | calls of a key enter in order of arrival |
| `WriteQueue.EntryIffBusy` | src/handlers/resource.js:926-939 | the map has an entry exactly for keys with a call waiting or at work |
| `WriteQueue.EntryDropped` | src/handlers/resource.js:937-940 | a release drops the entry exactly when nobody waits behind it |
| `WriteQueue.BusyHasStep` | src/handlers/resource.js:931-940 | a busy key always has an enabled step, also after a taken lock or a thrown error |
| `WriteQueue.CanDrain` | src/handlers/resource.js:920-941 | from every reachable state the calls can all be served and the map is then empty |
| `ConditionalWrites.Resource.WriteResource` | src/handlers/resource.js:1060-1151 | PUT under the lock: preconditions on what stat found, then the write, 201 or 204; what they are, `ConditionalWrites.PutOutcome` says |
| `ConditionalWrites.Resource.RemoveResource` | src/handlers/resource.js:1182-1220 | DELETE under the lock: 404, precondition, removal |
| `ConditionalWrites.Resource.ApplyPatchRequest` | src/handlers/resource.js:1260-1440 | PATCH under the lock: If-Match only when the resource exists, patch, write |
| `ConditionalWrites.NextKeepsInv` | src/handlers/resource.js:1049-1298 | what stat found stays true until the write, and the history of answers stays explained, at every step |
| `ConditionalWrites.EveryRunExplained` | src/handlers/resource.js:1049-1298 | every interleaving gives the answers and the store of some order of whole requests, early 412 and 404 and the 503 of a taken lock included |
| `ConditionalWrites.OrderRespectsTime` | src/handlers/resource.js:1041-1057 | in that order of requests one answered before another arrives comes first |
| `ConditionalWrites.SecondUse` | src/utils/conditional.js:44-77 | after any success, a request whose If-Match lists only tags issued before it succeeds exactly if it is a PATCH that finds no resource, patches and goes through |
| `ConditionalWrites.SecondSuccess` | src/handlers/resource.js:1060-1298 | the same in every interleaving |
| `ConditionalWrites.OneOldWinner` | src/handlers/resource.js:1060-1198 | among PUTs and DELETEs whose If-Match lists tags issued at the start, the same or different ones, at most one succeeds |
| `ConditionalWrites.SameTagAgain` | src/utils/conditional.js:44-77 | after a successful PUT or DELETE that names one tag, a request that names it succeeds exactly if it is such a PATCH |
| `ConditionalWrites.OneWinner` | src/handlers/resource.js:1060-1198 | among PUTs and DELETEs with the same concrete If-Match tag, whenever issued, at most one succeeds |
| `ConditionalWrites.PatchIgnoresIfMatchWhenMissing` | src/handlers/resource.js:1285-1298 | a run in which a DELETE and then a PATCH succeed with the same tag |
| `ConditionalWrites.PutOutcome` | src/handlers/resource.js:1041-1151 | in every interleaving a PUT succeeds exactly if its write goes through, If-Match is absent or lists '*' or the tag of the resource there, and If-None-Match is absent, or '*' and no resource is there, or a list without its tag; a success leaves the body under a new tag with 201 or 204, a refusal leaves the store |
| `ConditionalWrites.DeleteOutcome` | src/handlers/resource.js:1182-1220 | the same for DELETE: the resource is there and If-Match is met; then it is gone |
| `ConditionalWrites.PatchOutcome` | src/handlers/resource.js:1260-1440 | the same for PATCH: If-Match is met or nothing is there, and the patch applies; then its result is there under a new tag |
| `ConditionalWrites.OneCreates` | src/utils/conditional.js:119-152 | in every interleaving, among PUTs with If-None-Match '*' and no DELETE between them, at most one succeeds |
| `ReplayCache.EventIds.NoteEventId` | src/auth/nostr.js:87-91 | new exactly when absent, and then noted with its time |
| `ReplayCache.EventIds.SweepEventIds` | src/auth/nostr.js:80-85 | deleting while iterating leaves the ids inside the window |
| `ReplayCache.EventIds.Verify` | src/auth/nostr.js:224-364 | time window, other checks, then the replay check off the git routes |
| `ReplayCache.AcceptancesFarApart` | src/auth/nostr.js:77-91 | off the git routes two acceptances of one id are more than the window apart |
| `ReplayCache.NoEventTwice` | src/auth/nostr.js:224-364 | no signed event is accepted twice off the git routes |
| `ReplayCache.ForgettingChangesNothing` | src/auth/nostr.js:71-91 | every decision is that of a cache that never forgets |
| `ReplayCache.AcceptedIff` | src/auth/nostr.js:224-364 | a request is accepted exactly if its event is in order and created within 60 seconds of now and, off the git routes, no earlier such request had its id |
| `ReplayCache.SweepKeepsWindow` | src/auth/nostr.js:78-84 | a sweep keeps exactly the ids noted at most 120 seconds ago |
| `ReplayCache.Jtis.CleanupJtiCache` | src/auth/solid-oidc.js:48-57 | deleting while iterating leaves the proofs young enough to verify |
| `ReplayCache.Jtis.VerifyDpopProof` | src/auth/solid-oidc.js:213-230 | iat window, jti present, not used; then recorded, a composite jti under its own identity |
| `ReplayCache.JtiReusedOnlyWhenExpired` | src/auth/solid-oidc.js:48-78 | a primitive jti is accepted again only when its first proof can no longer verify |
| `ReplayCache.ProofTwiceIffComposite` | src/auth/solid-oidc.js:213-230 | an accepted proof is accepted again exactly when its jti is an array or object and it still verifies |
| `ReplayCache.CompositeProofTwice` | src/auth/solid-oidc.js:213-230 | a run in which one proof with an array for a jti is accepted twice |
| `ReplayCache.NoProofTwice` | src/auth/solid-oidc.js:213-230 | no DPoP proof with a primitive jti is accepted twice |
| `ReplayCache.RecordedWasAccepted` | src/auth/solid-oidc.js:224-230 | a jti is refused as used only when it was accepted before |
| `ReplayCache.ProofAcceptedWhen` | src/auth/solid-oidc.js:213-230 | only a proof in order, with a jti and issued within 300 seconds of now, is accepted; it is when its jti is composite or no earlier one passed with it, and is not while an accepted one with its jti could still verify |
| `ReplayCache.CleanupKeepsYoung` | src/auth/solid-oidc.js:48-57 | a cleanup keeps exactly the jtis of proofs issued at most 300 seconds ago |
| `LruCache.Resolver.SetCacheEntry` | src/auth/did-nostr.js:31-40 | the key moves to the end and the front is dropped down to the limit |
| `LruCache.Resolver.Lookup` | src/auth/did-nostr.js:196-207 | a fresh entry is served and moved to the end, a stale one deleted |
| `LruCache.Resolver.LookupCid` | src/auth/cid-doc-fetch.js:84-98 | the same for CID documents |
| `LruCache.Resolver.SetCached` | src/auth/cid-doc-fetch.js:115-122 | a set without delete keeps the place of an entry already there |
| `LruCache.CacheInOrder` | src/auth/did-nostr.js:26-40 | after any overlapping lookups keys stand in order of last touch, within the limit, each with what was stored last |
| `LruCache.EvictsLeastRecent` | src/auth/did-nostr.js:31-40 | a key leaves only when found stale or when a full cache takes a new key and it is least recently touched |
| `LruCache.DidAnswersAreRecent` | src/auth/did-nostr.js:27-40 | a served answer was stored by an earlier step, the last for its key, less than five minutes before, one for a failure, in a cache of at most 10,000 keys |
| `LruCache.RecentIsServed` | src/auth/did-nostr.js:27-207 | the answer stored last for a key is served while it is less than five minutes old, one for a failure, and fewer than 10,000 other keys were named since |
| `LruCache.InPlaceIffLast` | src/auth/cid-doc-fetch.js:115-122 | setting in place is the touching set exactly when the key is absent or last |
| `LruCache.CidKeepsLatest` | src/auth/cid-doc-fetch.js:84-122 | however lookups overlap, the CID cache stays within its limit and holds what was stored last |
| `LruCache.CidInOrderIff` | src/auth/cid-doc-fetch.js:84-122 | however lookups overlap, the CID cache stands in order of last touch throughout a run exactly when every store finds its document absent or last |
| `LruCache.CidCacheIsTouching` | src/auth/cid-doc-fetch.js:84-122 | it is throughout the touching cache, with all its laws, under the same condition and no other |
| `LruCache.OneAtATimeInOrder` | src/auth/cid-doc-fetch.js:84-122 | stores that each follow their own missed lookup meet the condition |
| `LruCache.CidAnswersAreRecent` | src/auth/cid-doc-fetch.js:45-122 | the same age law for CID documents, at most 1,000, however lookups overlap |
| `LruCache.RecentDocumentIsServed` | src/auth/cid-doc-fetch.js:45-122 | the same for CID documents, 1,000 keys, while stores go to the end |
| `LruCache.OverlapLosesOrder` | src/auth/cid-doc-fetch.js:84-122 | a run of overlapping lookups after which the document stored last stands first in line for eviction |
| `PubkeyIndex.PubkeyTable.Rebuild` | src/idp/well-known-did-nostr.js:111-262 | the nested loops and the pruning compute the tally of valid claims without ambiguous keys |
| `PubkeyIndex.IndexIsExact` | src/idp/well-known-did-nostr.js:230-260 | a key is in the index exactly when one account validly claims it, with that account's WebID |
| `PubkeyIndex.ResolvesIff` | src/idp/well-known-did-nostr.js:150-260 | a key resolves to an account exactly if its first profile about its WebID lists the key in a method that `authentication` names and a controller of the profile controls, and no other account's does |
| `PubkeyIndex.AccountOrder` | src/idp/well-known-did-nostr.js:124-125 | the index is the same for every order of accounts |
| `PubkeyIndex.MethodOrder` | src/idp/well-known-did-nostr.js:230-247 | the index is the same for every order of verification methods |
| `Reservations.SubtreeAccepts` | src/plugins.js:98-105 | a literal reservation accepts itself and its subtree, with or without a query |
| `Reservations.PatternAccepts` | src/plugins.js:78-96 | a parameterised reservation accepts paths whose segments fit one by one |
| `Reservations.QueryDoesNotMatter` | src/plugins.js:84-105 | acceptance depends on the part before the first '?', save for a line terminator in the query |
| `Reservations.PathDecides` | src/plugins.js:84-105 | a URL without line terminators is accepted or refused by its path alone |
| `Reservations.LineFeedRefused` | src/plugins.js:102-105 | "/a" is accepted, and refused with a line feed for a query |
| `Reservations.KeyIffSameUrls` | src/plugins.js:107-117 | two reservations have the same key exactly when their matchers accept the same URLs |
| `Reservations.PluginHost.ReservePath` | src/plugins.js:289-338 | normalisation, refusals, the claim and the installed matcher |
| `Reservations.ReserveKeepsExclusive` | src/plugins.js:312-336 | a new matcher accepts other URLs than every installed one, and a refusal or repeat has one that accepts the same |
| `Reservations.FirstMethodsStay` | src/plugins.js:315-336 | reserving the same URLs again changes nothing, whatever the methods |
| `Reservations.AlwaysExclusive` | src/plugins.js:312-336 | after any reservations no two matchers accept the same URLs |
| `Reservations.FirstComeFirstServed` | src/plugins.js:297-318 | after any calls, a call is reserved exactly if nobody asked for its URLs before, repeated exactly if its own plugin asked first, and refused with the holder's name exactly if another did; not absolute and not a path as their texts say |
| `Reservations.KeyIsTrimmed` | src/plugins.js:301 | the key is the path without white space around it and without slashes at its end |
| `Reservations.ReserveAddsOne` | src/plugins.js:319-336 | only a reservation changes anything: one matcher more, for its path, with the methods asked for |

## Left out

- Doubles: amounts, reserves and products are exact integers and reals; rounding above 2^53 and exponent text are not modelled.
- Non-numeric amounts in request bodies and ledger texts beyond what `parseInt` reads: bodies arrive as floored integers.
- Concurrent pay requests: each request is one step, except that a crash may fall between the two writes of a scan.
- Deposits by TXO string, `.buy` and `.withdraw`: they credit and debit without `creditOnce`.
- PayEngine.RunMovesGap: deposits by TXO string and token sales credit without a coin and are not among its steps; neither are crashes inside a claim or a withdrawal.
- DepositScan.PayStore.Claim: which chains are enabled is not part of this model.
- UtxoSelection.UtxoFile.Withdraw: keys, scripts and the voucher text are not part of this model.
- `compact` and `listBalances`: they read only the default currency.
- DepositScan.RunCreditsOnce: values are taken as not negative, and an outpoint has one chain and one value, whoever lists it.
- `Mrc20.ChainFixedByLast`: SHA-256 is any function, injective where the law needs it.
- JSON numbers other than integers, and toJSON, undefined and functions, which `JSON.stringify` treats specially.
- TokenBalances.RemoveZeros: names that are integers, which a JavaScript object enumerates first; the text of a state sorts its names anyway.
- TokenTrail.TrailFile.TransferToken: key derivation, signing and the explorer are inputs; amounts are integers, and a text found in the balances starts with a lower-case letter or a bracket, as the texts do that transfers to inherited names leave.
- `Bech32m.Bech32mEncode`: prefixes are ASCII and symbols below 32, as its callers pass; letter case and the length limit of BIP-173 are not modelled.
- BitGroups.ConvertBits: widths that add up to at most 32 bits; the callers use 8 and 5.
- TxBuild.BuildTransaction: a signature is any function of the input's number; digests and key tweaks are not modelled, and ids are 64 lower-case hexadecimal digits.
- ConditionalWrites.EveryRunExplained: directories, quotas, notifications and breaking stale locks are not part of this model.
- Entity tags are numbers that are new with every write; the file system derives them from size and time.
- Parsing of If-Match text: headers arrive as lists of normalised tags.
- ReplayCache.EventIds.Verify: signature, URL, method and payload checks are one truth value, since the cache does not touch them.
- PubkeyIndex.PubkeyTable.Rebuild: making ids absolute, file probing errors and logging; a profile arrives with its ids absolute.
- Reservations.PluginHost.ReservePath: the escaping of literal text is the text itself; method names arrive upper-cased and plugin ids are not empty.
- The email index: generated addresses skip its uniqueness check.
- Routing, hooks, HTML views, CORS, WebAuthn, OIDC interaction, git, ActivityPub and remote storage: wiring or foreign code.
