# Bituncoin: proofs about its ledgers, pools and protocols

This project models the state-keeping parts of the Bituncoin repository in Dafny and proves
properties of every run of them. `dafny verify dfyconfig.toml` checks the whole project.

Most components are modelled in three layers that are tied together:

* a class (or method) with the source's fields, loops and in-place updates, whose contracts say
  outright what each call returns and leaves behind, in the source's own constants;
* a step function on values that the class's contracts also equate its state changes with;
* lemmas over all runs of that step function, which read the state off the history of calls:
  what was last put, set, deposited or granted.

| file | what it models |
|---|---|
| `WalletContract.dfy` | the Fabric wallet contract: Mint, Melt, Transfer over the key/value world state |
| `SupplyDrift.dfy` | the separately kept total supply against the sum of all balances |
| `Serializability.dfy` | contract calls in flight at once, with buffered writes and version-checked commits |
| `CommitRule.dfy` | exactly when a call in flight is accepted, in terms of what the calls read and write |
| `DualWrite.dfy` | the mint and melt routes and the .NET ledger: two replicas, requests in flight, one-sided failures, and the service's unlocked reads and writes |
| `DeliveryOrders.dfy` | when the two ledgers agree if calls take turns at the service, and what delivery order can do |
| `OverlappingCalls.dfy` | when they agree although calls overlap inside the service, and inputs that part them |
| `ProofOfStake.dfy` | the validator registry and stake-weighted selection |
| `BlockProduction.dfy` | CreateBlock's three lock sections interleaved with everything else |
| `StakingPool.dfy` | the Gold-Coin staking pool: accrual, claims, increases, lock and unstaking |
| `Blockchain.dfy` | the append check against whole-chain validation |
| `TransactionHistory.dfy` | the per-user index, filters, and the in-place newest-first sort |
| `LevelDB.dfy` | the write-through cache over files, with failing disk operations |
| `PeerNetwork.dfy` | the peer table, and any number of nodes with their accept and read loops |
| `Exchange.dfy` | reciprocal rates and conversions along paths |
| `FraudDetector.dfy` | suspicious-activity counts and blocking |
| `Accounts.dfy` | doubly indexed accounts, roles, passwords, sessions, deactivation |
| `PathSplit.dfy` | splitPath of the payment handlers, byte by byte |
| `MapSums.dfy`, `Outcomes.dfy`, `ByteStrings.dfy` | sums over maps; option and result types; bytes |

Conventions. Amounts (`float64`, `decimal`) are exact reals; the one rounding kept is the
four-decimal printing of the total supply, whose stored text is represented by the integer
number of ten-thousandths it denotes. The clock, random draws, map iteration orders,
generated IDs and the success of each disk or network write are parameters. An amount that
arrives as text is given as its parsed value, or as none when it does not parse.

Findings where the code does something a reader may not expect:

* `Transfer` with the same wallet on both sides credits it without a debit
  (`SupplyDrift.TransferConservesIff`, `SupplyDrift.SelfTransferMakesMoney`), and its record then reports a balance that is not the
  stored one (`WalletContract.RecordTellsBalance`). The supply bound therefore carries the sum
  of such credits.
* The .NET service is one object shared by all requests, and its dictionary has no lock: a mint
  reads the balance and then writes, a melt checks it, reads it again and then writes. Calls that
  overlap lose updates: mints of 5 and 7 to a new wallet, both reported as done, leave 7 there and 12
  at the contract (`OverlappingCalls.TwoMintsRace`), and melts of 8 and 5 against 10 can both pass
  the check and leave -3 (`OverlappingCalls.TwoMeltsOverdraw`). `DualWrite.GapLaw` accounts for
  every such loss, and `OverlappingCalls.OneKindBurstAgreesIff` says exactly when mints alone or
  covered melts alone keep the ledgers equal. If calls on a wallet take turns, none of this happens
  (`DeliveryOrders.LedgersStayEqual`).
* Each POST starts its two writes at once and POSTs overlap, so two requests on one wallet can also
  reach the contract and the service in different orders. Then the ledgers can part although nothing
  is lost and no calls overlap: melts of 8 and 5 against 10 leave 2 on one side and 5 on the other
  (`OverlappingCalls.TwoMeltsRace`); `DeliveryOrders.OppositeOrdersDisagreeIff` says exactly when.
* A wallet name of white space only is accepted by the route and by the contract but refused
  by the .NET service (`DeliveryOrders.AgreementKeptIff`, `OverlappingCalls.BlankMintParts`).
* Stop's comment says it disconnects all peers. A read loop that has a valid handshake in hand,
  or one already read off the connection, marks its peer Connected afterwards, until the loop
  exits; no other listed peer can be (`PeerNetwork.StopHoldsIff`, `PeerNetwork.StopCanFail`).
* A password of more than 72 bytes is refused by bcrypt, and hashPassword then stores it as it
  is, which never verifies: such an account is created and nobody can log in to it
  (`Accounts.LogInIff`, `Accounts.LongPasswordLocksOut`). A password with a NUL byte in it can share
  its record with another (`Accounts.NulPasswordVerifies`).
* Rates for symbols containing hyphens can overwrite each other (`Exchange.HyphensBreakReciprocity`);
  `Exchange.KeepsReciprocityIff` says exactly when an update is safe for a pair, and
  `Exchange.AlwaysReciprocalIff` when every sequence of updates is.
* splitPath re-encodes each byte of 128 or more as two bytes, so it returns the path's own
  pieces exactly for ASCII paths (`PathSplit.ExactIffAscii`).
* Unstake's comment says it removes a stake; the code keeps it, inactive, so an address can
  stake only once. The model follows the code.

## Model

| member | source | states |
|---|---|---|
| WalletContract.KeysApart | fabric/chaincode/btng-wallet/main.go:74-77 | wallet, record and supply keys never collide, and different wallets have different keys |
| WalletContract.RoundTicks | fabric/chaincode/btng-wallet/main.go:269 | printing with four decimals gives a nearest multiple of 0.0001, the even one on a tie |
| WalletContract.BTNGWalletContract.GetWalletState | fabric/chaincode/btng-wallet/main.go:237-251 | a fresh copy of the stored wallet, or nothing when the key is absent or holds something else |
| WalletContract.BTNGWalletContract.PutWalletState | fabric/chaincode/btng-wallet/main.go:253-260 | the wallet is stored under the key of its own ID and nothing else changes |
| WalletContract.BTNGWalletContract.UpdateTotalSupply | fabric/chaincode/btng-wallet/main.go:262-270 | the stored supply becomes its parsed value plus the change, printed with four decimals |
| WalletContract.BTNGWalletContract.Mint | fabric/chaincode/btng-wallet/main.go:37-86 | succeeds iff it names a wallet and a positive amount; the record it returns and the two refusals; the new world state is that of the call specification whose laws follow |
| WalletContract.BTNGWalletContract.Melt | fabric/chaincode/btng-wallet/main.go:89-138 | succeeds iff moreover the wallet is found and covers the amount; record, refusals and world state likewise |
| WalletContract.BTNGWalletContract.Transfer | fabric/chaincode/btng-wallet/main.go:141-187 | the same for Transfer, both wallets being read before either is written |
| WalletContract.ExecMovesBalances | fabric/chaincode/btng-wallet/main.go:50-186 | after any call every wallet's balance changed by exactly the requested movement, none is negative, and a refused call moves nothing |
| WalletContract.RecordTellsBalance | fabric/chaincode/btng-wallet/main.go:63-78 | a successful call's record is stored under its ID with the call's own kind, wallets, amount, time and gold price, and reports the wallet's stored balance, iff it is not a self-transfer |
| WalletContract.WritersAreStamped | fabric/chaincode/btng-wallet/main.go:55-60 | every wallet a successful call writes is stored under its own name with the time of the call |
| SupplyDrift.TransferConservesIff | fabric/chaincode/btng-wallet/main.go:155-171 | a successful transfer conserves the sum of balances iff its two wallets differ, and never touches the supply |
| SupplyDrift.SelfTransferMakesMoney | fabric/chaincode/btng-wallet/main.go:155-171 | ten minted and four paid by the wallet to itself: it holds 14, the supply says 10 |
| SupplyDrift.SupplyCallSums | fabric/chaincode/btng-wallet/main.go:80-83 | Mint and Melt move the sum of balances by the amount and the supply by the amount up to one rounding |
| SupplyDrift.DriftBound | fabric/chaincode/btng-wallet/main.go:262-270 | after any run with k successful mints and melts, supply and sum of balances (self-credits set aside) differ by at most k x 0.00005 |
| SupplyDrift.NoDriftOnWholeTicks | fabric/chaincode/btng-wallet/main.go:262-270 | with mint and melt amounts that are multiples of 0.0001 the difference is exactly zero |
| SupplyDrift.SupplyTracksBalances | fabric/chaincode/btng-wallet/main.go:194-204 | the bound and the exact case for runs whose transfers are between distinct wallets, and no balance is ever negative |
| SupplyDrift.DriftBoundIsTight | fabric/chaincode/btng-wallet/main.go:262-270 | for every k some run attains the bound |
| Serializability.FiveStepsReturn | fabric/chaincode/btng-wallet/main.go:37-187 | the GetState/PutState program of each call, run alone, returns and leaves what the call specification says |
| Serializability.GetsAreUnwritten | fabric/chaincode/btng-wallet/main.go:262-270 | no call reads a key it has already written |
| Serializability.WritesAreExec | fabric/chaincode/btng-wallet/main.go:37-187 | if every version read is still current, the buffered writes are what the call would do to the current state |
| Serializability.Serializable | fabric/chaincode/btng-wallet/main.go:37-187 | after any interleaving the committed state, and each committed result, are those of the committed calls run serially in commit order |
| Serializability.UndisturbedCallCommits | fabric/chaincode/btng-wallet/main.go:37-187 | in any interleaving, a call that begins, takes its steps and commits while nothing else does is accepted iff it would succeed alone, and has that effect |
| Serializability.DroppedCallLeavesNothing | fabric/chaincode/btng-wallet/main.go:37-187 | a call given up after any number of steps leaves no trace |
| CommitRule.AcceptedIff | fabric/chaincode/btng-wallet/main.go:37-270 | in any interleaving a call that has succeeded is accepted iff no call committed since the versions it saw has written either of the two keys it read; otherwise nothing changes |
| CommitRule.SeenWhenRead | fabric/chaincode/btng-wallet/main.go:237-270 | those versions are the ones of the moment of each read, whatever happens between the read and the commit |
| Serializability.ConcurrentSupplyTracksBalances | fabric/chaincode/btng-wallet/main.go:262-270 | the supply bound, its exact case for whole-tick amounts and non-negative balances hold after every interleaving |
| DualWrite.BTNGWalletService.Mint | src/BTNGWalletService.cs:12-31 | new ledger, log and result, with the blank-name and non-positive refusals |
| DualWrite.BTNGWalletService.Melt | src/BTNGWalletService.cs:33-57 | the same for Melt, refused when the balance is short |
| DualWrite.BTNGWalletService.GetBalance | src/BTNGWalletService.cs:59-62 | the entry, or zero |
| DualWrite.DeliveryEffects | btng-api/app/api/btng/wallet/mint/route.ts:19-28 | a delivery to the contract moves its balance by the amount exactly when the contract's guard passes, and leaves the service alone |
| DualWrite.GapLaw | src/BTNGWalletService.cs:19-45 | in every interleaving of submissions, deliveries, losses and the service's single reads and writes, the gap at every wallet is the signed sum of the requests that exactly one side has applied, plus the sum over the service's writes of balance overwritten less balance read |
| DualWrite.GapIsOneSidedIff | btng-api/app/api/btng/wallet/melt/route.ts:19-28 | the gap is the one-sided requests alone iff that second sum is zero, as it is when no write came between a call's read and its own write |
| DualWrite.SubmissionIff | btng-api/app/api/btng/wallet/mint/route.ts:12-17 | a request is taken on iff it names a wallet and a positive amount, and then waits on both sides |
| DualWrite.FateIsFinal | btng-api/app/api/btng/wallet/mint/route.ts:19-28 | in every continuation a request that a side has applied, refused or lost stays so: no side processes it twice |
| DualWrite.LostStaysLost | btng-api/app/api/btng/wallet/melt/route.ts:19-28 | a lost delivery changes nothing else, and its side never processes the request |
| DualWrite.ReadCurrentIff | src/BTNGWalletService.cs:19 | a write is marked as made on a current read iff no step of the run between that read and it wrote the wallet |
| DualWrite.GuardCurrentIff | src/BTNGWalletService.cs:40-45 | and as made on a current guard iff none did between the call's first look and it |
| DeliveryOrders.ServedIsCall | src/BTNGWalletService.cs:12-57 | the steps of a call with nobody in between do what the service's method does |
| DeliveryOrders.OneAtATimeIsAlone | src/Program.cs:8 | if calls on a wallet enter the service one at a time, every write to it is made on a guard and a read that still hold |
| DeliveryOrders.AgreeIffSameSettlement | btng-api/app/api/btng/wallet/melt/route.ts:19-28 | if no write came between another call's guard and write, the ledgers agree at a wallet iff settling its requests in the contract's order gives what settling them in the service's order gives (zero for a blank name) |
| DeliveryOrders.LedgersStayEqual | btng-api/app/api/btng/wallet/mint/route.ts:19-28 | with no blank name, the ledgers are equal at a wallet whose requests have reached both sides in the same order and whose calls took turns at the service |
| DeliveryOrders.AgreementKeptIff | btng-api/app/api/btng/wallet/melt/route.ts:12-17 | one request delivered to both sides of equal ledgers with nothing in between keeps them equal, unless its name is blank and the contract applies it |
| DeliveryOrders.OppositeOrdersDisagreeIff | btng-api/app/api/btng/wallet/melt/route.ts:19-28 | two requests on one wallet, not overlapping but in opposite orders, make the sides disagree iff the order matters: two unequal melts, each covered but not both, or a melt covered only after the mint; in one order they never do |
| OverlappingCalls.CoveredBurstAgrees | btng-api/app/api/btng/wallet/melt/route.ts:19-28 | any number of requests may overtake each other and overlap without disagreement if the balance before them covers all their melts and no write comes between a call's read and its write |
| OverlappingCalls.OneKindBurstAgreesIff | src/BTNGWalletService.cs:19-45 | for any number of mints alone, or of covered melts alone, in any interleaving, that condition is exact: the ledgers agree iff no read was overtaken by a write |
| OverlappingCalls.MintsAreCovered | src/BTNGWalletService.cs:19 | mints need no covering balance, so for them the exact condition holds from any state |
| OverlappingCalls.OverlappingMintsPart | src/BTNGWalletService.cs:19 | two mints that each read before the other writes leave a gap of the earlier writer's amount |
| OverlappingCalls.OverlappingMeltsPartIff | src/BTNGWalletService.cs:40-45 | two melts that both pass their guard before either takes from the balance part the ledgers iff each is covered but not both, and then the service's balance is negative |
| OverlappingCalls.TwoMintsRace | src/BTNGWalletService.cs:19 | mints of 5 and 7 to a new wallet, both applied on both sides: the contract holds 12, the service 7 |
| OverlappingCalls.TwoMeltsRace | btng-api/app/api/btng/wallet/melt/route.ts:19-28 | melts of 8 and 5 against 10 in opposite orders: one side ends at 2, the other at 5 |
| OverlappingCalls.TwoMeltsOverdraw | src/BTNGWalletService.cs:40-45 | the same two, overlapping at the service: 2 and -3 |
| OverlappingCalls.BlankMintParts | src/BTNGWalletService.cs:14-15 | a mint to a name of one space reaches the contract only |
| ProofOfStake.NeverFallsBack | consensus/pos-validator.go:107-120 | for every random value in [0, total) the selection loop selects; the fallback is not reached |
| ProofOfStake.PickedExactly | consensus/pos-validator.go:111-117 | entry i is chosen exactly on (prefix, prefix + stake], the first one also at zero |
| ProofOfStake.TotalIsOrderFree | consensus/pos-validator.go:92-101 | the total stake is the same for every map iteration order |
| ProofOfStake.SelectionSound | consensus/pos-validator.go:84-121 | for every order and draw the selected validator is registered under its address and active |
| ProofOfStake.SelectionProportional | consensus/pos-validator.go:107-117 | for every iteration order, the draws u in [0, 1) that select the i-th active validator are those for which u times the sum of all active stakes lies in its interval (prefix, prefix + stake], zero going to the first: the chance is its share of the stake |
| ProofOfStake.Consensus.RegisterValidator | consensus/pos-validator.go:55-81 | accepted iff a new address with at least 1000, and then active with that stake; the three refusals |
| ProofOfStake.Consensus.CollectActive | consensus/pos-validator.go:92-101 | the active validators along the iteration and their total stake |
| ProofOfStake.Consensus.PickActive | consensus/pos-validator.go:111-120 | the loop returns the specified pick |
| ProofOfStake.Consensus.SelectValidator | consensus/pos-validator.go:84-121 | an error iff there is nobody to select, else the object of the one active validator in whose share u times the total active stake lies |
| ProofOfStake.Consensus.TakeIndex | consensus/pos-validator.go:130-133 | the counter goes up by one and its new value is handed out |
| ProofOfStake.Consensus.RewardValidator | consensus/pos-validator.go:161-168 | only the named validator's stake grows by the reward, if it is registered |
| ProofOfStake.Consensus.UnstakeValidator | consensus/pos-validator.go:184-197 | returns the whole stake and removes exactly that validator |
| ProofOfStake.Consensus.CreateBlock | consensus/pos-validator.go:124-150 | undisturbed: next index, the validator in whose share the draw lies is named and rewarded, every field of the block |
| ProofOfStake.Consensus.ValidateBlock | consensus/pos-validator.go:213-238 | accepts iff the hash matches and the validator is registered and active |
| BlockProduction.SelectionStepsCover | consensus/pos-validator.go:84-121 | in every state of a run, for every order and draw, the selection section returns a validator that the model's selection step can pick |
| BlockProduction.IndicesAreConsecutive | consensus/pos-validator.go:130-133 | in every interleaving the indices handed out are 1..n in order, without repeats |
| BlockProduction.EachBlockRewardedOnce | consensus/pos-validator.go:124-150 | every block has exactly one reward step once its producer is done, none before, and it names that block's validator |
| BlockProduction.RegisteredIffJoinedLast | consensus/pos-validator.go:55-81 | at every moment of every run an address is registered iff the last registration or unstaking of it in the history is a registration |
| BlockProduction.RegistrationIff | consensus/pos-validator.go:55-81 | in every run a registration is accepted iff the address is named, brings at least 1000 and has not joined last, and then it is active with that stake |
| BlockProduction.UnstakingIff | consensus/pos-validator.go:184-197 | in every run an unstaking is accepted iff the address joined last, and returns all it paid in and earned, read off the history |
| BlockProduction.SelectionIff | consensus/pos-validator.go:124-128 | in every run the addresses an idle producer can be started on are exactly those that joined last |
| BlockProduction.FinishedBlockCreditedIff | consensus/pos-validator.go:124-168 | in every run a finished block has exactly one reward step, for its own validator, and it credits iff the history up to that step has the validator registered |
| BlockProduction.ProducerCompletes | consensus/pos-validator.go:124-150 | a producer's three sections, with registrations and unstakings in between, give the next index and reward the validator picked at the start iff it is registered at the end |
| BlockProduction.StakeConserved | consensus/pos-validator.go:55-197 | at every address: stake held = registered - returned + credited rewards, in every interleaving |
| BlockProduction.TotalStakeConserved | consensus/pos-validator.go:55-197 | the same for the total over all validators |
| BlockProduction.WeightsAreNetPayments | consensus/pos-validator.go:92-117 | in every run the weight of each address in the selection is its registered less returned stake plus 2 per credited reward, and the total weight is the sum of these over the history |
| StakingPool.AccruedMonotone | goldcoin/staking.go:148-151 | more stake or more time never accrues less |
| StakingPool.AccruedExact | goldcoin/staking.go:87-94 | accrual is exactly five percent a year of 365.25 days, counted in nanoseconds |
| StakingPool.GoldPool.CreateStake | goldcoin/staking.go:41-71 | the new position with its times and the new total, or the first refusal that applies |
| StakingPool.GoldPool.CalculateRewards | goldcoin/staking.go:74-97 | five percent a year of 365.25 days on the current amount since the start, less what was claimed |
| StakingPool.GoldPool.ClaimRewards | goldcoin/staking.go:100-127 | pays that and counts it as claimed, refused iff it is not positive |
| StakingPool.GoldPool.Unstake | goldcoin/staking.go:130-161 | pays the amount and that reward and deactivates, refused while locked |
| StakingPool.GoldPool.IncreaseStake | goldcoin/staking.go:199-220 | amount and total grow, or the first refusal that applies |
| StakingPool.NoNegativePayout | goldcoin/staking.go:113-118 | with a clock that never goes back no payout is ever negative |
| StakingPool.PaidWithinAccrual | goldcoin/staking.go:100-127 | at all times of a run with a forward clock an active stake has been paid no less than zero and no more than five percent a year on its deposits since its creation |
| StakingPool.TotalRewardAtUnstake | goldcoin/staking.go:148-160 | rewards paid from creation to unstaking are exactly five percent a year of 365.25 days on all deposits over the whole time, and the principal paid equals all deposits |
| StakingPool.ClaimsDoNotMatter | goldcoin/staking.go:113-124 | two histories with the same deposits and the same times of creation and unstaking pay the same rewards, whenever they claimed or increased |
| StakingPool.FiftyInAYear | goldcoin/staking.go:29-36 | 1000 staked for 365.25 days pays 50, with one claim, and with two and an increase halfway |
| StakingPool.TotalStakedIsSum | goldcoin/staking.go:67-68 | TotalStaked is always the sum of the active amounts |
| StakingPool.DepositsConserved | goldcoin/staking.go:156-160 | all deposits = TotalStaked + principal returned |
| StakingPool.PrincipalLaw | goldcoin/staking.go:154-158 | per address: deposits are its amount, returned in full on unstaking and not before |
| StakingPool.StagesOnlyAdvance | goldcoin/staking.go:53-64 | an address goes absent, active, inactive and never back; its times never change |
| StakingPool.ReleasedOnceAndUnlocked | goldcoin/staking.go:143-146 | principal is returned at most once and not before the lock period after creation |
| Blockchain.Chain.constructor | core/btnchain.go:28-47 | a new chain is the genesis block |
| Blockchain.Chain.AddBlock | core/btnchain.go:50-71 | appended iff index and previous hash follow the last block, otherwise unchanged with the first failing check named |
| Blockchain.Chain.GetBlock | core/btnchain.go:86-95 | the block at the index, or an error outside the chain |
| Blockchain.Chain.ValidateChain | core/btnchain.go:106-124 | accepts iff every block follows its predecessor, else reports the first block that does not |
| Blockchain.BuiltIsLinked | core/btnchain.go:50-71 | every chain built by AddBlock validates and its i-th block has index i |
| Blockchain.AppendAllIffLinked | core/btnchain.go:50-124 | appending blocks one by one is accepted throughout iff the whole sequence validates, and rebuilds it |
| Blockchain.RebuiltIffValid | core/btnchain.go:106-124 | a sequence is rebuilt from its first block without rejection iff it validates |
| TransactionHistory.History.AddTransaction | wallet/transactions.go:69-88 | rejects nil and empty IDs, otherwise extends the log; store and index stay those of the log |
| TransactionHistory.History.GetTransaction | wallet/transactions.go:91-101 | the transaction last added under the ID, or an error iff there is none |
| TransactionHistory.History.GetUserTransactions | wallet/transactions.go:104-121 | for any history: what the user's logged IDs now stand for; with distinct IDs, the plain scan of the log |
| TransactionHistory.History.UpdateTransactionStatus | wallet/transactions.go:124-137 | changes status and confirmations of that one transaction and nothing else |
| TransactionHistory.History.FilterTransactions | wallet/transactions.go:140-154 | the same scan restricted to type and asset, an empty one standing for all |
| TransactionHistory.History.GetRecentTransactions | wallet/transactions.go:157-174 | newest first, of the size asked for, from the user's transactions, omitting nothing newer than what is returned |
| TransactionHistory.SortNewestFirst | wallet/transactions.go:161-167 | the swap loops sort newest first and permute |
| TransactionHistory.IndexIsScan | wallet/transactions.go:79-121 | with distinct IDs the indexed look-up equals the scan of everything added, each entry once |
| TransactionHistory.ScanSubset | wallet/transactions.go:79-85 | the scan of an address holds exactly the logged transactions with that sender or receiver |
| TransactionHistory.ScanLaws | wallet/transactions.go:79-85 | a scan keeps the order of addition and takes each entry with that sender or receiver once |
| TransactionHistory.SelectLaws | wallet/transactions.go:147-151 | a selection keeps the order and takes each entry of that type and asset once |
| TransactionHistory.LookUpIsLatest | wallet/transactions.go:104-121 | with repeated IDs too: one entry per logged transaction of the user, being the one last added under its ID |
| TransactionHistory.ReindexedIndexes | wallet/transactions.go:79-85 | an addition keeps the index in step with the log, once under each distinct party |
| TransactionHistory.CutIsMostRecent | wallet/transactions.go:169-173 | cutting a sorted permutation leaves out nothing newer |
| LevelDB.FileNamesAreKeys | storage/leveldb.go:121-127 | keys and .dat file names correspond one to one through Ext and the dropped suffix |
| LevelDB.FileNameText | storage/leveldb.go:103-106 | the file of a key is the key followed by .dat, and .dat is its extension |
| LevelDB.DB.NewLevelDB | storage/leveldb.go:20-37 | fails iff the directory cannot be created or listed, else a store that has loaded exactly the readable data files |
| LevelDB.DB.constructor | storage/leveldb.go:110-138 | the loading loop reads exactly the readable data files |
| LevelDB.DB.Put | storage/leveldb.go:40-50 | the value is cached under the key, and in its file unless the write fails; every other key and file unchanged; refused for the empty key |
| LevelDB.DB.Get | storage/leveldb.go:53-63 | the cached value or an error |
| LevelDB.DB.Delete | storage/leveldb.go:66-79 | cache entry gone, file gone iff the removal succeeded, everything else unchanged |
| LevelDB.DB.Close | storage/leveldb.go:161-174 | succeeds iff no write of a cached key fails; then every cached pair is in its file and the cache empty, else the cache is kept; no other file is touched |
| LevelDB.RunFaithful | storage/leveldb.go:40-79 | after any run with any failures, cache and disk differ only on keys whose latest disk operation failed, or that a Close dropped from the cache |
| LevelDB.CachedIffPut | storage/leveldb.go:40-79 | in every run without reopening, a key is cached iff some Put of it was followed by no Put or Delete of it and no successful Close, and its value is the one put, whatever disk operations failed |
| LevelDB.PutIsDurable | storage/leveldb.go:48-50 | what a Put wrote without a fault is there for a new store on the directory, with no Close at all, if the key was left alone since and no Close failed on its file |
| LevelDB.CloseSucceedsIff | storage/leveldb.go:166-170 | a Close succeeds iff no write of a cached key fails |
| LevelDB.CloseThenReopen | storage/leveldb.go:161-174 | after any run, any Close without a failing write and any reopening, every readable pair is back, plus at most keys whose removal or loading had failed or that an earlier Close dropped; without such keys exactly the cache less the unreadable keys |
| LevelDB.PutComesBack | storage/leveldb.go:161-174 | after any run, what was last put under a key comes back from every Close without a failing write and every reopening that can read its file |
| LevelDB.FaultlessReopen | storage/leveldb.go:104-174 | when no disk operation fails and every earlier Close was followed by a reopening, closing and reopening gives exactly the old cache |
| PeerNetwork.PeerTable.Stop | network/network.go:129-152 | every listed peer closed and disconnected, or an error when not running |
| PeerNetwork.PeerTable.RegisterPeer | network/network.go:453-473 | a fresh connecting peer is listed under the ID |
| PeerNetwork.PeerTable.RemovePeer | network/network.go:476-486 | the peer is taken off the list |
| PeerNetwork.PeerTable.Disconnect | network/network.go:187-204 | closed, disconnected and taken off the list, or an error |
| PeerNetwork.PeerTable.MarkConnected | network/network.go:415-421 | a listed peer becomes connected with the announced version and height |
| PeerNetwork.PeerTable.MarkDisconnected | network/network.go:391-395 | a listed peer becomes disconnected |
| PeerNetwork.PeerTable.Send | network/network.go:246-261 | refuses unknown and disconnected peers |
| PeerNetwork.ConnectedMeansGreeted | network/network.go:385-422 | in every interleaving a Connected peer has read a valid handshake on its own connection and its read loop has not exited |
| PeerNetwork.RemovedStaysRemoved | network/network.go:187-204 | an ID once off its node's list never reappears |
| PeerNetwork.NeverConnectedAfterExit | network/network.go:390-397 | once a read loop has exited its peer is Disconnected, if listed, in every continuation |
| PeerNetwork.DisconnectIsFinal | network/network.go:187-204 | a peer that its node disconnects is off the list in every continuation |
| PeerNetwork.FailedReadIsFinal | network/network.go:388-398 | a read that fails ends its loop for good and lists the peer as Disconnected, or not at all, ever after |
| PeerNetwork.FailedGreeting | network/network.go:176-183 | a dialler that cannot send its greeting is given up for good; an accepted connection is read all the same |
| PeerNetwork.StreamsKeepOrder | network/network.go:384-408 | in every run without a loss or a failed read at an end, everything under way or read there stays in its order and new messages come behind it |
| PeerNetwork.PingComesBack | network/network.go:424-425 | a ping sent to an end at rest is read there, answered, and the pong is read at its twin; nothing else changes |
| PeerNetwork.ReadAfterStop | network/network.go:384-408 | however many messages the decoder had taken off a connection, all are read and handled in order although the node stops then |
| PeerNetwork.MeetingConnectsBoth | network/network.go:155-184 | two nodes that dial, accept and greet each other come to list each other as Connected with the version and height announced |
| PeerNetwork.QuietStepDrains | network/network.go:384-450 | a step that greets, reads or handles lowers the load by at least one; no quiet step raises it |
| PeerNetwork.QuietRunDrains | network/network.go:384-450 | without new connections and outside sends the number of message moves of any run, pending greetings included, is bounded by the load |
| PeerNetwork.StopHoldsIff | network/network.go:129-152 | a peer listed when the node stops is never again listed as Connected, in any continuation, iff its read loop has no valid handshake in hand or already read off the connection |
| PeerNetwork.StopCanFail | network/network.go:129-152 | a run of five steps after which the stopped node still comes to list its peer as Connected |
| PeerNetwork.ConnectedMarkEndsWithLoop | network/network.go:390-397 | whenever a continuation after Stop does list it as Connected, its read loop has not exited yet |
| Exchange.KeyInjective | wallet/exchange.go:98-108 | keys of hyphen-free symbols determine the pair |
| Exchange.RateBook.SetExchangeRate | wallet/exchange.go:94-116 | both directions carry the fee that was set, the forward one the rate and the reverse one its reciprocal; all other pairs keep theirs |
| Exchange.RateBook.GetExchangeRate | wallet/exchange.go:119-130 | the stored rate or an invalid-pair error |
| Exchange.RateBook.CalculateExchange | wallet/exchange.go:133-149 | payout and fee together are amount times rate, the fee being that percentage of it; or the error |
| Exchange.QuoteIsLastUpdate | wallet/exchange.go:94-130 | after any positive updates of distinct hyphen-free symbols a pair is quoted iff it was ever updated, at exactly the fee of its last update and at that rate, or its reciprocal if that update was made from the other side |
| Exchange.ExchangeIsLastUpdate | wallet/exchange.go:133-149 | so what an exchange pays and takes is given by the last update of the pair alone |
| Exchange.BnbForUsd | wallet/exchange.go:90 | BNB at 500 USD with one percent: 2 BNB pay 990 and a fee of 10, 500 USD pay 0.99 and 0.01 |
| Exchange.AlwaysReciprocal | wallet/exchange.go:94-116 | after any positive updates of distinct hyphen-free symbols every pair is quoted both ways at reciprocal rates and one fee, or not at all |
| Exchange.RoundTripExact | wallet/exchange.go:133-149 | along any path and back, of any length, the amount is multiplied by the product of (1 - fee/100) squared |
| Exchange.RoundTripNeverGains | wallet/exchange.go:94-149 | so after any such updates no round trip gains |
| Exchange.KeepsReciprocityIff | wallet/exchange.go:98-115 | for any symbols: a pair stays reciprocal under every rate and fee set for another iff their keys are separable |
| Exchange.AlwaysReciprocalIff | wallet/exchange.go:94-116 | for any set of symbol pairs: a pair stays reciprocal after every sequence of positive updates of them iff each is separable from it |
| Exchange.HyphensBreakReciprocity | wallet/exchange.go:98-108 | hyphenated symbols that share a key, with a round trip that gains |
| FraudDetector.Detector.CheckTransaction | wallet/security.go:240-262 | verdict and new state, checks in the source's order |
| FraudDetector.Detector.LogSuspiciousActivity | wallet/security.go:265-274 | one more activity, blocked from the third on |
| FraudDetector.VerdictIsHistory | wallet/security.go:240-290 | every verdict, read off the history: blocked if either party was blocked by hand or by its third or a later large transaction since it was unblocked last, else large above 10000, else high frequency after more than 5 large transactions let through |
| FraudDetector.CountBound | wallet/security.go:240-290 | in every run the count is at most 3 plus unblockings while blocked, 2 plus unblockings while not |
| FraudDetector.HighFrequencyNeedsUnblocks | wallet/security.go:255-259 | the high-frequency verdict needs at least four unblockings of the sender |
| FraudDetector.FourUnblocksSuffice | wallet/security.go:255-259 | and four are enough |
| Accounts.AccountManager.CreateUser | auth/accounts.go:124-171 | one new object entered in both maps with its role's permissions, or the refusal |
| Accounts.AccountManager.Authenticate | auth/accounts.go:174-210 | a session of 86400 seconds for an active user whose stored hash verifies, stored under the new ID, else the error |
| Accounts.AccountManager.ValidateSession | auth/accounts.go:213-236 | the object of the session's user, iff the session is known, unexpired and of an active user; expired sessions give that error |
| Accounts.AccountManager.HasPermission | auth/accounts.go:239-255 | true iff the user exists, is active and lists the permission |
| Accounts.AccountManager.UpdateUserRole | auth/accounts.go:258-276 | role and permissions change together, through either index |
| Accounts.AccountManager.DeactivateUser | auth/accounts.go:279-291 | the user becomes inactive, through either index |
| Accounts.AccountManager.LogoutSession | auth/accounts.go:335-346 | the session is gone, or an error |
| Accounts.AlwaysConsistent | auth/accounts.go:124-171 | in every run the two indexes are inverse to each other and permissions are the role's table entry |
| Accounts.AccountIsItsHistory | auth/accounts.go:124-291 | in every continuation after an account is created: active iff not deactivated since, with the role of the last update to a known role (at first the one asked for, or plain user), and permitted exactly what that role may do |
| Accounts.DeactivationIsFinal | auth/accounts.go:279-291 | after a successful deactivation no log-in, session or permission of that user succeeds in any continuation |
| Accounts.VerifiesIff | auth/accounts.go:348-363 | a password verifies against the record of p iff p has at most 72 bytes and the two, each closed by NUL and repeated, agree in their first 72; without NUL bytes: iff it is p, or extends a p of exactly 72 |
| Accounts.NulPasswordVerifies | auth/accounts.go:348-363 | with a NUL byte inside, another password verifies |
| Accounts.LogInIff | auth/accounts.go:174-210 | in every continuation after an account is created, a log-in succeeds iff the account has not been deactivated and the password verifies; with the account's own password, iff not deactivated and that has at most 72 bytes |
| Accounts.LongPasswordLocksOut | auth/accounts.go:348-357 | an account created with a 73-byte password is active and refuses every password |
| Accounts.SessionHonouredIff | auth/accounts.go:198-236 | in every continuation after a log-in, while it is not logged out, the session gives its user iff at most 86400 seconds have passed since the log-in and the account has not been deactivated; after that time it is refused as expired |
| Accounts.LoggedOutForGood | auth/accounts.go:335-346 | once logged out, a session is refused in every continuation that does not use its ID again |
| PathSplit.SplitPath | payments/btnpay.go:202-220 | the loop returns the path's pieces with every byte encoded as a code point |
| PathSplit.PiecesAreGood | payments/btnpay.go:207-217 | pieces are non-empty and slash-free |
| PathSplit.SplitOfJoin | payments/btnpay.go:202-220 | splitting the join of any such pieces gives them back |
| PathSplit.SplitAtSlash | payments/btnpay.go:207-213 | the pieces of p/q are those of p followed by those of q |
| PathSplit.ExtraSlashes | payments/btnpay.go:207-213 | leading, trailing and repeated slashes change nothing |
| PathSplit.NormalForm | payments/btnpay.go:202-220 | normalising keeps the pieces, and two paths have the same pieces iff they have the same normal form |
| PathSplit.LastPieceIsID | payments/btnpay.go:150-157 | the last element returned is the encoding of what follows the last slash, and that itself iff it is ASCII |
| PathSplit.ExactIffAscii | payments/btnpay.go:206-214 | the result is the pieces themselves iff the path is ASCII |

## Left out

- Floating-point rounding, NaN and infinities: amounts are exact reals, except for the four-decimal printing of the supply.
- The supply text itself: it is represented by the number of ten-thousandths it denotes; printing and parsing are otherwise exact.
- Fabric's runtime: endorsement, ordering and the version check at commit are taken as stated in `Serializability.dfy`; failing PutState and GetState calls are not modelled.
- GetTransactionHistory of the contract, which only decodes the ledger's own key history.
- The routes' HTTP replies and the fetch calls: a request reaches a side or does not; replies lost after a side has applied the request count as applied.
- Simultaneous accesses to the service's dictionary and log list: each single read or write is one step; what .NET does when two hit the same instant is not modelled, nor are the `balance_after` a call reports and the order of the log when calls overlap.
- Fabric transfers in the dual-write run: they are not mirrored by any route.
- JSON encoding of stored wallets, with its replacement of invalid UTF-8 in wallet names.
- SHA-256 and random IDs: a hash is an arbitrary function, a generated ID has not been used before.
- bcrypt's cipher and salt: two hashes match exactly when the 72 bytes of key material do; hashing fails only for passwords over 72 bytes, and a password stored as it is, is taken not to be itself a bcrypt hash.
- ProofOfStake.Consensus.CreateBlock: states the call with nobody in between; the interleavings are in `BlockProduction.dfy`.
- The random generator behind the draws, which is seeded from the clock.
- Changes from outside to what an object shares with its callers: exported fields (MinStake, RewardPerBlock, AnnualReward, LockPeriod, Blocks), objects handed out by getters, the byte slice that Put keeps, and the transaction and block pointers that AddTransaction and AddBlock keep.
- 64-bit overflow of times.
- StakingPool.NoNegativePayout: assumes the clock does not go back; the telescoping and conservation laws do not.
- LevelDB.DB.Put: keys containing a path separator are not modelled, because their files lie outside the listing that reopening reads, or under another key's name.
- LevelDB.RunFaithful: nobody else writes to the directory; sub-directories and file permissions are not modelled.
- PeerNetwork: sockets, TLS, deadlines, LastSeen and ConnectedAt times, and messages cut in the middle. Connect's check for an existing connection is a lock section of its own that binds nothing later, and Send's look-up and status check are one step.
- PeerNetwork.StopHoldsIff: about the peers listed when the node stops; a dial or accept under way may still list a new one afterwards, which the model's steps allow as the code does.
- PeerNetwork.QuietRunDrains: assumes the user's message handler sends nothing, as the bound is about the node's own answers.
- Exchange orders, supported-pair lists and default rates: bookkeeping without a law of its own.
- Exchange.RateBook.SetExchangeRate: does not model a rate of zero, because its floating-point reciprocal is infinite and has no real value.
- AddWalletAddress, two-factor settings, invoices, listing functions and pool summaries: read-only or one-field bookkeeping.
- wallet/dashboard.go, wallet/ai_manager.go, wallet/platform.go, wallet/crosschain.go, wallet/portfolio.go, wallet/cards.go, wallet/merchant.go, addons, identity, goldcoin/goldcoin.go and the copies of the .NET ledger: single thresholds and short bookkeeping with no property over runs.
