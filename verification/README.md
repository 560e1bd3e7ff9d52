# Verified models of the R5 client core

R5 Core is a go-ethereum derivative. This project models the parts of its client whose correctness
is hardest to see and proves it with Dafny 4.11: `dafny verify dfyconfig.toml`.

| module | models |
|---|---|
| `Chain`, `Fork`, `TxIndex`, `TotalDifficulty`, `ForkChoice` | the block tree, its parent paths, and the incrementally kept views of it |
| `BlockChain`, `HeaderChain`, `ChainSpec`, `Writers` | import, reorg and head selection for blocks and headers; runs of imports; all writers of difficulties on one database |
| `StateWalk`, `Rewinding`, `SetHead` | rewinding and repair: the search for a block with state, whole rewinds on values, and the code with every intermediate disk state |
| `Ancestry` | ancestor lookup through the canonical index; the EVM's caching block-hash closure |
| `TrieGC` | reference counting of recent state tries |
| `ChainIndexer` | the background section indexer under arbitrary interleavings |
| `CaseList`, `FeedProtocol`, `Feed` | the event feed: protocol and array code |
| `Gas`, `Balances`, `StateTransition`, `StateProcessor` | gas and currency accounting of messages and blocks |
| `DerivationPath` | BIP-32/BIP-44 path parsing and printing |
| `Emission`, `Arithmetic` | the yearly emission loop; products and quotients |

The reference for everything in the chain group is the parent path of a block (`Chain.AncestorAt`).
The database is a set of maps, a batch is one atomic write, a hash identifies its block, and the zero
hash stands for "absent" and is named as parent by block 0 alone. Classes follow the objects whose fields the source updates; loops of the
source are loops here.

## What the proofs found

Each of these is a property that one would expect and that the code does not have in full; the named
member states exactly when it holds. Where it takes a particular database or run to see the failure,
another member gives one.

- `StateWalk.FindStateful`: with a root threshold the search can step into a gap and dereference nil.
  `StateWalk.Crashes` is the exact condition for one search: below a reachable block with state the next
  block is missing, and no block from there up carries the threshold. `Rewinding.RewindCrashes` is the
  exact condition for a whole rewind. A gap that no search meets does no harm. `SetHead.CrashExample` is a
  database on which the repair of a head that lost its state crashes; repair is where a threshold is
  passed (client/core/blockchain.go:315).
- `SetHead.Rewinder.SetHead`: the head block ends with state exactly under `Rewinding.EndsWithState`. If a
  search starts at a header whose block is missing, genesis is taken without checking or recommitting
  its state: `SetHead.StatelessHeadExample`.
- `SetHead.Rewinder.SetHead`: if the target is already met nothing is deleted, so headers above the
  current one stay: `SetHead.LeftoverExample`.
- `BlockChain.BlockChain.Reorg`: a crash between its batches leaves canonical index and head marker in
  agreement, except after the deletions: there exactly if the marker is on the new path. When the new head
  sits on a block of the old path the marker has not moved by then, and its canonical entry is gone:
  `BlockChain.MarkerLeftBehind`.
- `Ancestry.GetAncestor`: for the zero hash and a number above the head, the absent canonical entry
  compares equal to the hash, and the answer is a canonical hash that is no ancestor of anything
  (`Ancestry.ZeroHashAnswered`). For every other hash a non-zero answer is the true ancestor.
- `BlockChain.BlockChain.WriteKnownBlock`: the canonical index is right for every block that becomes head,
  the lookup table exactly if no transaction repeats along its path (`TxIndex.RepeatedTransaction`). On a
  validated chain nonces keep a transaction from repeating (`StateProcessor.FoldBalances`). The
  transactions of a genesis block, if it has any, are never indexed.
- `ForkChoice.HeavierRejectedIff`: the documentation says that the header of higher total difficulty
  is chosen; the code rejects it exactly when it has the height of the current head.
  `ForkChoice.MutualReorgIff`: past the terminal total difficulty two headers displace each other;
  `ChainSpec.TerminalRunRevisits` is such a run.
- `ChainIndexer.SectionsBelowCheckpoint`: at or below an accepted checkpoint nothing is verified, so the
  answer is right exactly if its last head is. A failing backend reset drops all sections, the
  checkpoint's included; `ChainIndexer.WrongSectionReported` is a run from a fresh index through such a
  reset to a query that reports a head off the canonical chain.
- `ChainIndexer.SectionsCanonical`: above it the answer is right exactly if the last section has a head. It
  always has without a checkpoint; after a restart, which ignores a checkpoint that the index is past, a
  missing head can pass for a missing block: `ChainIndexer.ZeroHeadReported`.
- `StateProcessor.BlockLosesIff`: the total of all balances falls by exactly the burnt fees if and only if in
  no transaction a contract destroys value or, having destroyed itself, holds any at the end.
  `StateProcessor.FeesAlone` is the case of a machine without self-destruction; in
  `StateProcessor.DestructionExample` a contract is its own heir and the block's beneficiary, and both its
  balance and the fee are lost.
- `Emission.TerminatesIff`: the yearly loop ends exactly if the reward of the open epoch divides what
  the cap leaves to it.
- `StateTransition.Burnt`: a zero-fee message with the base fee switched off burns nothing, although it
  uses gas after London.
- `Gas.IntrinsicGas`: the access-list part is added without an overflow guard. The wrap-around needs about
  7.7e15 address entries, so no transaction reaches it.

## Model

| member | source | states |
|---|---|---|
| `Fork.FindFork` | client/core/blockchain.go:2077-2129 | finds both sides of a fork down to the highest common ancestor; fails exactly if the old head is missing or the paths meet nowhere |
| `Fork.MeetIffSameRoot` | client/core/blockchain.go:2108-2129 | a complete path meets another exactly if that one is complete and has the same block 0 |
| `TxIndex.ReorgIndexes` | client/core/blockchain.go:2084-2170 | dropping old-side-only transactions from the overlaid table and writing the new head's gives exactly the lookup index of the new path |
| `TxIndex.IndexedOnlyIfUnique` | client/core/blockchain.go:884-905 | an exact lookup index exists only if no transaction repeats along the path |
| `TxIndex.RepeatedTransaction` | client/core/blockchain.go:884-905 | a path with a repeated transaction, for which no lookup table is exact |
| `BlockChain.BlockChain.WriteHeadBlock` | client/core/blockchain.go:884-905 | one batch sets all head markers, the canonical entry and the transaction entries |
| `BlockChain.BlockChain.WriteNewSide` | client/core/blockchain.go:2152-2161 | the new side, all but its head, is written over the index and, if no transaction repeats on it, exactly over the lookup table, in increasing order; after each batch the index agrees with the head marker |
| `BlockChain.BlockChain.DropStale` | client/core/blockchain.go:2163-2185 | canonical entries above the given number up to the first gap and the stale transactions are deleted in one batch |
| `BlockChain.BlockChain.Reorg` | client/core/blockchain.go:2068-2188 | succeeds exactly if the old head is stored and the new path is complete with the same block 0; an error writes nothing; success leaves the canonical index that of any new path up to the head's own entry, whichever side is longer, and the lookup table too if no transaction repeats; index and head marker agree at every crash point but the last, and there exactly if the marker is on the new path |
| `BlockChain.MarkerLeftBehind` | client/core/blockchain.go:2171-2188 | a reorg that ends with the head marker off the new path |
| `BlockChain.BlockChain.WriteKnownBlock` | client/core/blockchain.go:1318-1327 | afterwards the canonical index is exactly the path of the block, nothing above; an exact lookup table stays exact if and only if no transaction repeats on that path |
| `BlockChain.BlockChain.WriteBlockWithState` | client/core/blockchain.go:1331-1353 | fails exactly on an unknown parent; stores the block with a total difficulty equal to its path sum |
| `BlockChain.BlockChain.WriteBlockAndSetHead` | client/core/blockchain.go:1425-1448 | keeps difficulties, index and markers consistent for every block, the lookup table exactly for a head path without repeated transactions, and moves the abstract chain by exactly one `Import` step |
| `BlockChain.BlockChain.ImportSideBlock` | client/core/blockchain.go:1888-1931 | one side-chain block: the running difficulty becomes its path sum, also when reset on a canonical block; refused exactly for a borrowed canonical state root |
| `BlockChain.BlockChain.InsertSideChain` | client/core/blockchain.go:1876-1932 | stores the batch with path-sum difficulties and returns the path sum of its last block and the last side block; fails exactly at the first block that borrows a canonical state root, with exactly its predecessors stored |
| `Writers.RunSound` | client/core/headerchain.go:200-252 | in every database reachable from genesis by any mixture of header batches, block writes and side chains, each block has its ancestors and its recorded difficulty is their sum |
| `Writers.TableDetermined` | client/core/blockchain.go:1333-1345 | the stored blocks determine the difficulty table, whichever writer filled it |
| `TotalDifficulty.AddKeepsSound` | client/core/blockchain.go:1333-1345 | writing a block on a stored parent keeps every recorded difficulty equal to its path sum |
| `ForkChoice.VerdictIsRank` | client/core/forkchoice.go:73-116 | before the terminal rule a reorg is demanded exactly for a better (difficulty, lower number) rank at another height |
| `ForkChoice.VerdictIgnoresChance` | client/core/forkchoice.go:100-115 | neither the coin nor the preserve hook influences the verdict |
| `ForkChoice.MutualReorgIff` | client/core/forkchoice.go:81-97 | two headers each demand a reorg over the other exactly past the terminal total difficulty |
| `ForkChoice.HeavierRejectedIff` | client/core/forkchoice.go:68-97 | a heavier header is rejected exactly at the height of the current head |
| `ChainSpec.StepAdvances` | client/core/blockchain.go:1429-1448 | every import keeps the tree rooted, loses nothing and, without a terminal difficulty, moves the head only to a better rank |
| `ChainSpec.RunAdvances` | client/core/blockchain.go:1425-1448 | over any run of block and header imports a later head equals an earlier one or ranks strictly above it |
| `ChainSpec.HeadNeverRevisited` | client/core/headerchain.go:278-296 | a head once left is never head again |
| `ChainSpec.TerminalRunRevisits` | client/core/forkchoice.go:81-86 | with a terminal difficulty of zero a run does return to a former head |
| `HeaderChain.HeaderChain.EntriesFrom` | client/core/headerchain.go:146-153 | collects exactly the canonical entries from a number up to the head |
| `HeaderChain.HeaderChain.WalkBack` | client/core/headerchain.go:157-173 | ends at the cross link; succeeds exactly if the path is complete; index plus writes is then the path of the first header |
| `HeaderChain.HeaderChain.ExtendWrites` | client/core/headerchain.go:175-185 | every header of the batch gets its canonical entry, hashes taken from the successor's parent field |
| `HeaderChain.HeaderChain.Reorg` | client/core/headerchain.go:130-194 | through both branches the index becomes exactly the path of the last header; a missing ancestor writes nothing |
| `HeaderChain.HeaderChain.Accumulate` | client/core/headerchain.go:208-242 | the running difficulty is the path sum at every header, known headers being skipped only as a leading run |
| `HeaderChain.HeaderChain.WriteHeaders` | client/core/headerchain.go:200-252 | stores the batch with path-sum difficulties and counts the headers after the known prefix; fails exactly on an unknown parent |
| `HeaderChain.HeaderChain.WriteHeadersAndSetHead` | client/core/headerchain.go:261-297 | keeps index and difficulties consistent and moves the abstract chain by exactly one `ImportHeaders` step, with the status that belongs to it |
| `StateWalk.FindStateful` | client/core/blockchain.go:628-678 | crashes exactly under `Crashes`; otherwise lands on the highest reachable block with state at or below the threshold, or genesis if there is none; has state exactly under the stated condition |
| `SetHead.Rewinder.UpdateMarkers` | client/core/blockchain.go:619-716 | crashes exactly where the walk does, changing nothing; otherwise moves block and snap markers to stored blocks not above the header, the block marker to the landing of the walk |
| `SetHead.Rewinder.Repair` | client/core/blockchain.go:738-743 | without a batch: crashes exactly if the walk from the head block does, changing nothing; otherwise the head block has state, and every disk state on the way has markers on stored data |
| `SetHead.Rewinder.HeightsAbove` | client/core/headerchain.go:637-645 | collects exactly the occupied heights above up to the first empty one |
| `SetHead.Rewinder.StepBack` | client/core/headerchain.go:602-632 | one turn: markers move first, in a batch that leaves all of them on stored data; a crash changes nothing |
| `SetHead.Rewinder.SetHead` | client/core/headerchain.go:576-672 | crashes exactly under `RewindCrashes`, with nothing deleted; otherwise ends, for a positive time, at the first ancestor not younger than it and else at the first not above the number, passing only younger or higher ones; the head block is at or below it and has state exactly under `EndsWithState`; nothing above is left and nothing at or below touched; every disk state on the way has markers on stored data |
| `Rewinding.CrashIsStuck` | client/core/headerchain.go:601-626 | a search that fails in the middle of a rewind fails at a place known from the database before the rewind |
| `Rewinding.WalkProgress` | client/core/headerchain.go:601-626 | a turn that does not fail leaves every such place ahead, and the head block with or without state as foreseen |
| `Rewinding.AtTheEnd` | client/core/headerchain.go:601-672 | a finished rewind has met no place to get stuck, and its head block has state exactly under `EndsWithState` |
| `SetHead.CrashExample` | client/core/blockchain.go:676 | a database with one missing body on which repair of the head, which lost its state, and a rewind crash |
| `SetHead.StatelessHeadExample` | client/core/blockchain.go:629-631 | a database on which a rewind ends on a head block without state |
| `SetHead.LeftoverExample` | client/core/headerchain.go:601 | a database on which the target is met and a header above it stays |
| `SetHead.CutIndexIsPath` | client/core/headerchain.go:646-667 | after the deletion the canonical index is the path of the new head |
| `Ancestry.CanonicalJump` | client/core/headerchain.go:409-415 | on the canonical path k parent steps are one index lookup |
| `Ancestry.GetAncestor` | client/core/headerchain.go:397-429 | a non-zero answer is the naive ancestor, found exactly if the walk arrives within the budget; the budget falls by exactly the steps to the first arrival, to a missing header or to its end; exact behaviour for the zero hash |
| `Ancestry.ZeroHashAnswered` | client/core/headerchain.go:409-415 | on a chain of genesis alone the zero hash gets genesis as an ancestor |
| `Ancestry.HashFn.Query` | client/core/evm.go:77-113 | answers as the uncached walk; cache entry i is the (i+1)-th ancestor, also after a missing header |
| `Ancestry.HashFn.Session` | client/core/evm.go:82-112 | any sequence of queries, in any order, over a growing chain is answered as without a cache |
| `TrieGC.TrieCache.WriteBlock` | client/core/blockchain.go:1361-1409 | one more reference for the root; past block 128 exactly the entries above number-128 stay queued |
| `TrieGC.TrieCache.Collect` | client/core/blockchain.go:1400-1408 | dereferences everything at or below the limit and nothing above it |
| `TrieGC.TrieCache.Drain` | client/core/blockchain.go:973-975 | every reference taken has been given back |
| `TrieGC.RunAndStop` | client/core/blockchain.go:1357-1409 | over any run of block writes followed by shutdown, references and dereferences agree for every root |
| `ChainIndexer.Indexer.SetValidSections` | client/core/chain_indexer.go:475-487 | removes exactly the heads of the dropped sections |
| `ChainIndexer.Indexer.VerifyLastHead` | client/core/chain_indexer.go:418-425 | rolls back as `VerifyLast` says |
| `ChainIndexer.VerifyStops` | client/core/chain_indexer.go:418-425 | drops exactly the sections above the highest one whose head is canonical, never one covered by an accepted checkpoint |
| `ChainIndexer.Indexer.NotifyHead` | client/core/chain_indexer.go:239-296 | a head makes known exactly the sections whose last block has the required confirmations, an accepted checkpoint permitting; a reorg keeps known and stored exactly those that end at or below the common ancestor, the checkpoint's staying stored |
| `ChainIndexer.Indexer.BeginUpdate` | client/core/chain_indexer.go:313-331 | verifies, then remembers section and predecessor head |
| `ChainIndexer.Indexer.FinishUpdate` | client/core/chain_indexer.go:342-365 | stores the section only if the predecessor head is unchanged, otherwise verifies again |
| `ChainIndexer.Indexer.ProcessSection` | client/core/chain_indexer.go:384-413 | succeeds exactly if every header read was stored, linked and accepted, whatever the chain did between reads; then the result is linked to the predecessor head |
| `ChainIndexer.Indexer.AddCheckpoint` | client/core/chain_indexer.go:126-139 | the checkpoint's section is stored with its head, unless the index is past it |
| `ChainIndexer.Indexer.Update` | client/core/chain_indexer.go:313-366 | one turn of the update loop, with reset, reads and refusals of the backend and with heads and queries arriving meanwhile, is exactly the run of its events |
| `ChainIndexer.QuietUpdate` | client/core/chain_indexer.go:305-366 | an undisturbed update stores exactly the next section, with the head of the headers read, or fails and then takes nothing for known that is not stored |
| `ChainIndexer.ReadsCommute` | client/core/chain_indexer.go:332-341 | a head or a query may as well arrive before a header is read as after it |
| `ChainIndexer.ReadsAgree` | client/core/chain_indexer.go:393-408 | reading headers as events succeeds exactly when the loop accepts them all, with the same last head |
| `ChainIndexer.Indexer.Sections` | client/core/chain_indexer.go:430-436 | above an accepted checkpoint the reported sections are canonical at that moment exactly if the last one has a head, as it does from the configured checkpoint on; at or below it exactly if that head is canonical; the chain need not be available below the stored heads |
| `ChainIndexer.StepKeepsInv` | client/core/chain_indexer.go:300-376 | every event, with any chain content, keeps each stored head an ancestor of the next, a restart with an exception only where the checkpoint is put |
| `ChainIndexer.LastImpliesAll` | client/core/chain_indexer.go:415-425 | if the last head is canonical, so is every stored one down to which the index is linked |
| `ChainIndexer.SectionsCanonical` | client/core/chain_indexer.go:418-436 | a query that ends above an accepted checkpoint is right exactly if its last section has a head |
| `ChainIndexer.SectionsBelowCheckpoint` | client/core/chain_indexer.go:418-425 | at or below an accepted checkpoint the query checks nothing; the answer is right exactly if its last head is |
| `ChainIndexer.RunSectionsCanonical` | client/core/chain_indexer.go:239-436 | over every interleaving from a fresh index, restarts included, a query that ends above the checkpoint reports canonical sections from the checkpoint's on, without a restart all of them, on an index linked from the stored heads up |
| `ChainIndexer.ZeroHeadReported` | client/core/chain_indexer.go:126-139 | a run in which a restart ignores the checkpoint and a query reports a section with the zero hash |
| `ChainIndexer.WrongSectionReported` | client/core/chain_indexer.go:388-391 | a run through a failing reset to a query that reports a section head off the canonical chain |
| `CaseList.DeleteActive` | client/event/feed.go:167-172 | deleting an active case shrinks the active part by exactly that case |
| `CaseList.DeactivateFacts` | client/event/feed.go:224-228 | the swap moves exactly one channel from the active to the inactive part |
| `FeedProtocol.StepKeepsInv` | client/event/feed.go:99-186 | under any interleaving a live channel is in exactly one of inbox and cases, and the books of a send balance |
| `FeedProtocol.SendServesAll` | client/event/feed.go:146-186 | at the end of a send every channel taken in and not removed got the value exactly once, and nsent is the number of deliveries |
| `FeedProtocol.SendTerminates` | client/event/feed.go:150-178 | active cases plus all cases is a termination measure |
| `FeedProtocol.RunSafe` | client/event/feed.go:99-122 | in no run is anything delivered to a channel after its Unsubscribe returned, until it is subscribed again |
| `FeedProtocol.RunNeverPanics` | client/event/feed.go:113-121 | in no reachable state is delete called with -1 |
| `Feed.Feed.FindCase` | client/event/feed.go:209-216 | the first index of the channel, or -1 |
| `Feed.Feed.DeleteCase` | client/event/feed.go:219-221 | the array holds the list without that case |
| `Feed.Feed.DeactivateCase` | client/event/feed.go:224-228 | the array holds the list with the case swapped out of the active prefix |
| `Feed.Feed.Remove` | client/event/feed.go:99-122 | with no send running, the channel leaves the list that holds it and nothing else changes; the steps are those of the protocol |
| `Feed.Feed.AcceptRemoval` | client/event/feed.go:166-174 | a request received during a send is the protocol's hand-over and deletion, and the active part shrinks exactly for an active case |
| `Feed.Feed.Send` | client/event/feed.go:124-186 | terminates and serves every channel taken in and not removed exactly once, whatever is ready, whoever asks to leave and whoever subscribes or unsubscribes meanwhile; removes only channels that asked, and counts all taken in if none of them did; it is a run of protocol steps |
| `Gas.GasPool.AddGas` | client/core/gaspool.go:25-31 | adds exactly; callers exclude the panic |
| `Gas.GasPool.SubGas` | client/core/gaspool.go:35-41 | subtracts, or reports too little gas and changes nothing |
| `Gas.ToWordSize` | client/core/state_transition.go:113-119 | the rounded-up word count for every 64-bit size |
| `Gas.IntrinsicGas` | client/core/state_transition.go:63-110 | the price list; overflow exactly if the data part exceeds 64 bits; exact exactly if the sum fits |
| `Gas.NonZeroIsCount` | client/core/state_transition.go:73-80 | the bytes counted are those at the positions that hold no zero |
| `Gas.ByteCosts` | client/core/state_transition.go:64-104 | what the empty data and every further byte cost, in numbers |
| `Gas.TupleCosts` | client/core/state_transition.go:105-108 | what every further tuple of an access list costs, in numbers |
| `Balances.TransferConserves` | client/core/evm.go:117-125 | a covered transfer conserves the total and makes no account negative |
| `Balances.RemoveTotal` | client/core/state/statedb.go:830-874 | removing accounts takes exactly what they hold from the total |
| `Balances.HeldNothingIff` | client/core/state/statedb.go:830-874 | the removed accounts hold nothing together exactly if each holds nothing |
| `StateTransition.MessagesArePriced` | client/core/state_transition.go:142-162 | a message has its transaction's sender, recipient, nonce, value, gas, data, list and caps, and is checked; gasPrice is at most gasFeeCap and, from London on, the effective price; only a missing sender fails |
| `StateTransition.IntrinsicByFork` | client/core/state_transition.go:63-110 | which byte and word prices belong to which fork |
| `StateTransition.StateTransition.BuyGas` | client/core/state_transition.go:224-244 | succeeds exactly with pool gas and funds at the fee cap; the sender stays non-negative and keeps the value to transfer |
| `StateTransition.StateTransition.PreCheck` | client/core/state_transition.go:246-295 | passes exactly the acceptable messages; otherwise charges nothing and reports the error that `Objects` names |
| `StateTransition.StateTransition.RefundGas` | client/core/state_transition.go:403-418 | refunds the lesser of counter and capped share, to sender and pool |
| `StateTransition.StateTransition.TransitionDb` | client/core/state_transition.go:307-401 | succeeds exactly for executable messages, else reports the error that `Objects` names, which is never that of the funds to transfer; the machine is given the world with the gas paid and, for a call, one nonce used; afterwards every account has what the machine left plus refund or tip; the sender's nonce is one higher; total balance falls by exactly the burnt base fee and what the machine destroyed |
| `StateTransition.SenderMovesOn` | client/core/vm/evm.go:419-438 | whether call or creation, the sender's nonce moves on by one, that of no other external account moves, and no account that has sent a message becomes a contract or is removed |
| `StateTransition.Settle` | client/core/state_transition.go:375-394 | tip plus base fee is the price charged, so purchase, refund and fee balance up to the burnt part |
| `StateTransition.RefundIsCapped` | client/core/state_transition.go:403-409 | at most the quotient's share of the used gas is given back |
| `StateProcessor.ApplyTransaction` | client/core/state_processor.go:96-125 | succeeds exactly for executable messages; receipt and world are those of the execution with destroyed accounts removed, pool and cumulative gas move by the used gas |
| `StateProcessor.NextTransaction` | client/core/state_processor.go:72-85 | one turn of the loop is exactly one step of the books, and is refused exactly when the step is |
| `StateProcessor.Process` | client/core/state_processor.go:55-94 | accepts exactly the blocks whose fold succeeds and returns its receipts, used gas and world; no 64-bit wrap and no pool panic on the way |
| `StateProcessor.StepLedger` | client/core/state_transition.go:307-401 | an accepted transaction takes its used gas from the pool and its burnt fee and the recorded loss from the total balance, keeps balances non-negative, moves the sender's nonce on by one and that of no other external account |
| `StateProcessor.FoldBalances` | client/core/state_processor.go:72-125 | in an accepted block pool plus used gas is the limit, cumulative figures are prefix sums, balances lose exactly the burnt fees and what went with destroyed contracts, and a sender's nonces are consecutive |
| `StateProcessor.EachTransactionBalances` | client/core/state_processor.go:72-125 | the same after each single transaction |
| `StateProcessor.TransferStep` | client/core/state_processor.go:96-125 | under a machine that only transfers, an accepted call gives the value to its recipient, takes it and the price of the gas from the sender, pays the tip, and touches no other account and no other nonce |
| `StateProcessor.TransfersArrive` | client/core/state_processor.go:60-94 | over a block of such calls an account that sends nothing and is not the beneficiary gains exactly what is sent to it |
| `StateProcessor.StepLosesIff` | client/core/state_processor.go:96-125 | a transaction takes exactly its burnt fee from the total if and only if it destroys nothing and the accounts removed hold nothing |
| `StateProcessor.BlockLosesIff` | client/core/state_processor.go:72-125 | the same for an accepted block and all its transactions |
| `StateProcessor.FeesAlone` | client/core/state_processor.go:72-125 | without self-destruction and with fees enforced, an accepted block takes its used gas times the base fee from the total, and nothing before London |
| `StateProcessor.DestructionExample` | client/core/vm/instructions.go:813-826 | a block of one transaction that loses a contract's balance and the fee paid to it |
| `StateProcessor.BlockBurns` | client/core/state_processor.go:72-85 | with fees enforced a block burns used gas times base fee, and nothing before London |
| `DerivationPath.ParseDerivationPath` | client/accounts/hd.go:64-114 | yields the meaning of the text, never an empty path |
| `DerivationPath.RelativeIsDefault` | client/accounts/hd.go:77-79 | a relative path means the same as behind "m/44'/60'/0'/0/" |
| `DerivationPath.AbsoluteMeans` | client/accounts/hd.go:74-112 | what follows a printed path and a slash is appended to it |
| `DerivationPath.ComponentMeans` | client/accounts/hd.go:85-109 | a component with any spaces, sign, base prefix and digits is its number, plus 2^31 if hardened, exactly if that fits |
| `DerivationPath.OnlyDigits` | client/accounts/hd.go:96-99 | nothing but digits of the base and underscores is read as a number |
| `DerivationPath.Print` | client/accounts/hd.go:118-132 | yields the canonical text |
| `DerivationPath.RoundTrip` | client/accounts/hd.go:64-132 | parsing the printed form returns the path, exactly for non-empty paths, across the hardened boundary |
| `DerivationPath.CanonicalKeepsMeaning` | client/accounts/hd.go:64-132 | the printed form of whatever was parsed parses to the same path |
| `DerivationPath.CanonicalInjective` | client/accounts/hd.go:118-132 | different non-empty paths print differently |
| `Emission.Year` | devtools/reward_calculation.py:34-61 | a year pays the block-by-block sum up to what is reachable under the cap |
| `Emission.Emit` | devtools/reward_calculation.py:27-72 | ends with exactly the cap paid, after the first year in which the block-by-block sum reaches it |
| `Emission.EmitYears` | devtools/reward_calculation.py:33-72 | any number of turns of the loop pays `PaidAfter`, whether or not the cap can be reached |
| `Emission.TerminatesIff` | devtools/reward_calculation.py:33-72 | some number of turns reaches the cap exactly if the open epoch's reward divides the rest |
| `Emission.R5Conditions` | devtools/reward_calculation.py:8-25 | the R5 table, supply cap and premine meet the conditions; the closed epochs pay 28 million coins |

## Left out

- Caches (headers, difficulties, numbers, bodies, transaction lookups) are treated as transparent; the aborted header import, which fills caches before its batch is dropped, is not modelled.
- The ancient store and fast-sync receipt import: the store is empty, so no forced wipe occurs in a rewind and a repair never reaches the header chain. The cleaning of caches, safe and finalised blocks after a rewind.
- The `insertChain` driver, including its known-block path that sets the head without asking the fork choice, and the re-import that follows `insertSideChain`.
- Log and head event payloads, metrics and timing of reorgs.
- Hash collisions, signature recovery and seal verification; header validity is what the preconditions name.
- The virtual machine, state database and tries: only the contract `StateTransition.RunOk` is used, with the nonce and collision rules of contract creation (client/core/vm/evm.go:419-438) and self-destruction; `TransferOnlyOk` shows that it can be met. The removal of empty accounts, the DAO fork, the check on withdrawals before Shanghai and block finalisation (rewards, withdrawals) are not part of the model of `Process`.
- StateTransition.StateTransition.TransitionDb: after a failed call says nothing about balances and pool, because the source leaves them partly charged and its callers discard them. Messages without a fee cap, which only simulated calls build, are not modelled.
- Chain indexer children, throttling, shutdown, checkpoints added while running and other than the configured one; the order of the single writes to the index database; the unlocked drop of all sections on a failed reset is one atomic step.
- Feed.Feed.Remove: is the arm without a running send; the other arm is `Feed.Feed.AcceptRemoval`, on the sender's side. A channel subscribed twice at the same time is not modelled.
- BlockChain.BlockChain.InsertSideChain: only the writing loop; the fork-choice question and re-import after it are left out.
- The select statement of the feed: readiness of channels and order of requests are arbitrary; value types and the type check are not modelled. `client/event/feedof.go` is the same algorithm.
- Path iterators and JSON forms of derivation paths; number syntax is that of Go's base-0 integers.
- Decimal rounding at 28 digits in the emission script: amounts are exact integers in a unit that divides every reward.
- Networking, RPC, wallets, consensus engines and the other tools of the repository.
