# The UTXO ledger, verified

A Dafny model of the transaction ledger: the third version of the blockchain library together with the
`send`, `mine` and `list` commands of its command-line client. The state is the wallet, the chain, the list of
unspent outputs and the pool of pending transactions; a run is any sequence of commands.

What makes the ledger hard to trust is that its functions look entries up in different ways. Validation compares the
full reference (block digest, transaction id, output digest). Signing and the update of the unspent list compare the
output digest alone, which covers only the amount and the owner, so many entries share it. The pool check compares
only four bytes of each digest. Sums are 32-bit and wrap. The main results say what the ledger keeps over every run all
the same, and, where it does not, exactly when it does:

- the unspent outputs are the outputs created minus the outputs spent; they are worth fifty coins a block less what
  payments lost beyond 32 bits, so exactly fifty a block if and only if no payment ever named 2^32 or more; and always
  fifty a block as the 32-bit number the client displays;
- the pool never spends an entry more often than the list holds it, and no pooled transaction is ever dropped;
- only the owner of an output spends it, and a block changes what anyone has by what it pays them, less what the pool
  took from them;
- a send succeeds exactly when the address is a key, the amount is positive and spendable, and every signature is made;
  what is spendable is never more than the owner has beyond what the pool names, and is all of that for every pool if
  and only if no entry of the owner clashes with another in the four bytes, be it by accident or because both have the
  same reference;
- the pool check is exact for every pool if and only if those bytes tell different references apart;
- a mine command that ends never takes its error branch, until the block index can grow no more;
- as values the books always balance, but as references they need not: a block keeps them balanced if and only if its
  payments name, of each output digest, the foremost entries. This holds in every run whose senders' entries clash with
  none and whose `list` commands move no entry past another of the same digest, as no stable sort does. It fails without
  any accident of digests in two ordinary ways. In a run of eight commands the sort exchanges two equal entries, and one
  reference is spent twice. In a run of nine commands without a `list`, half a coin is sent to oneself twice: each time
  the change equals the payment, which makes two entries of one reference, and once the pool names the one, a selection
  passes over the other and the block removes it all the same;
- the references created on a chain all differ if and only if no transaction on it has two equal outputs; then the books
  balance if `list` commands keep equal digests in order and prefixes tell references apart;
- validation suffices: whoever built it, a chain whose blocks are all accepted is linked, worked for, pays one coinbase of
  fifty coins a block, and spends only outputs of earlier blocks with their owners' signatures; but the genesis block
  is accepted again at any place;
- a transaction that names other references or creates other output digests under the id of an accepted one is refused;
  validation looks at outputs through their digests and their sum alone;
- the digest of the tip determines the whole chain, what was created and spent on it, and the outputs unspent; a
  transaction id determines references and outputs exactly when the numbers of outputs agree; up to an exhibited
  collision;
- the proof-of-work test is a numeric bound, the nonce search finds the least nonce, and the difficulty moves, after
  every fifth block, up exactly when five blocks took less than two seconds and down exactly when they took more than
  ten; it stays within what the test can read up to block 1285;
- a file of version 0.3 loads back what was saved exactly when no block of index 0 has a list and all data areas are zero
  past their length; the block area of version 0.1 is prefix-free, and read on a machine of the other byte order it
  loses half of every timestamp and nonce. A file of version 0.3 is refused exactly when it does not start with "HBLK"
  and "0.3", and every field stands where the document of the format puts it.

## Layout

`Bytes`, `LinkedList` and `Crypto` hold the vocabulary. `Transactions`, `Validity`, `UpdateUnspent`, `Create`,
`Difficulty`, `Blocks` and `Mining` follow the source files: methods with the source's loops, each proved against a
function. `Cli` holds the client's mutable state (`Mining.BlockNode`, `Cli.Blockchain`, `Cli.State`), whose methods are
proved against the steps of the state machine in `Ledger`. `CreateLaws`, `UnspentLaws`, `ChainLaws`, `Soundness`,
`Conservation`, `Progress`, `Accounts` and `TipLaws` prove the results about those functions and about runs;
`Retarget`, `PoolCheck`, `ValidChains` and `TamperEvidence` say exactly when the difficulty moves, what the pool check
compares, and what validation accepts;
`ExactRemoval`, `OldestFirst`, `References` and `DistinctRefs` those about which entries an update removes, and
`Reordering` and `TwinOutputs`, on top of `Runs`, give the runs in which it removes others. `Codec`, `FormatV01` and
`FormatV03` are the files, and `Layouts` says where each field stands in them and in what is hashed; `Hex` is the text
form of keys, which `Addresses` ties to sends, and `Endianness` the reversal of a number's bytes.

## Assumptions

- SHA-256 (FIPS 180-4, section 6.2) is an arbitrary function from byte strings to 32 bytes, a field of
  `Crypto.Suite`. It is nowhere assumed to be injective. Results that depend on collisions ask for a clean chain: no two
  different outputs on the chain share a digest, and no output's digest ends in 28 zero bytes (the form of a coinbase's
  mark). `Progress.CleanOrCollision` shows what an unclean chain exhibits.
- `ChainLaws.GenesisDigest`: the digest written into the genesis block is the digest of its bytes.
- ECDSA is a pair of functions; `Crypto.KeyPair` says that what a key signs verifies under it, and
  `Crypto.RefusesUnsigned` that the empty signature does not. Conservation needs neither. Signing may fail, and the
  randomness it draws is an input; the creation of a transaction ignores a failure, and the results on sends say what
  follows. Only `Accounts.SendWithinBalance` and the runs in `Reordering` and `TwinOutputs` take a key that always
  signs.
- The clock and the order a sort produces are inputs of the commands. The results on runs allow a `list` command any
  order; `Cli.State.List` promises the order by amount.
- A `mine` command for which no 64-bit nonce meets the difficulty never returns; such a command is not a step.

## Where documents and code differ

The code is followed. The document `blockchain/v0.3/Blockchain_Transactions.md` lists the nonce before the timestamp in
what a block hash covers; the structure that is hashed has the timestamp first. The client's `README.md` asks for the
unspent list to be updated after each pooled transaction; `mine` validates the whole pool against the list as it was
and updates it once, after the block is accepted. The `list` command passes the flag 0 to the sort, which is neither of
the two flags the list library documents; the model says that the result is ordered by amount, one way or the other,
and nothing about entries of equal amount.

## Model

| member | source | states |
|---|---|---|
| LinkedList.RemoveFirstTakesTheFirst | llist/llist.h:139-152 | the node deleted is the first an identifier accepts, and no other |
| LinkedList.RemoveFirstKeepsRest | cli/mine.c:48-51 | one deletion takes one node unless there is none to take, and leaves the nodes the identifier does not accept in order |
| Transactions.PackInputs | blockchain/v0.3/transaction/transaction_hash.c:10-25 | the cursor loop fills the buffer with the 96-byte references of all inputs, in order |
| Transactions.PackOutputs | blockchain/v0.3/transaction/transaction_hash.c:34-49 | the cursor loop adds the output digests behind them and fills the buffer to its end |
| Transactions.TransactionHash | blockchain/v0.3/transaction/transaction_hash.c:57-97 | the id is the digest of the references followed by the output digests; there is none for an empty transaction |
| Transactions.TransactionIdDeterminesExactly | blockchain/v0.3/transaction/transaction_hash.c:67-86 | without a collision, equal ids mean equal references and equal output digests if and only if the numbers of outputs are equal |
| Transactions.TransactionIdDetermines | blockchain/v0.3/transaction/transaction_hash.c:67-86 | so it is when the numbers of outputs differ by less than three, or the packed bytes collide |
| Transactions.OutputHashDetermines | blockchain/v0.3/transaction/tx_out_create.c:20-24 | equal output digests mean equal amount and owner, or two 69-byte strings collide |
| Transactions.ThreeOutputsReadAsAnInput | blockchain/v0.3/transaction/transaction_hash.c:67-83 | the bound is tight: four outputs hash like one input and one output |
| Layouts.HashedInput | blockchain/v0.3/transaction/transaction_hash.c:10-25 | at which offset of the hashed bytes the three digests of each input stand |
| Layouts.HashedOutputDigest | blockchain/v0.3/transaction/transaction_hash.c:34-49 | and the digest of each output, behind all inputs |
| Layouts.HashedOutput | blockchain/v0.3/transaction/tx_out_create.c:20-24 | the digest of an output covers four bytes of amount and then the owner |
| Validity.FindNamed | blockchain/v0.3/transaction/transaction_is_valid.c:11-64 | the inner search stops at the first entry whose three digests are the input's |
| Validity.ValidateInputs | blockchain/v0.3/transaction/transaction_is_valid.c:53-75 | all inputs are found and signed by the owners of what they name, and the sum is that of the named outputs, in 32 bits |
| Validity.TransactionIsValid | blockchain/v0.3/transaction/transaction_is_valid.c:37-80 | the verdict, both ways: right id, every input found and signed, 32-bit sums equal |
| ValidChains.TransactionAcceptedExactlyWhen | blockchain/v0.3/transaction/transaction_is_valid.c:37-80 | a transaction is accepted exactly when it is not empty, its id is the digest of its bytes, the first entry each input names belongs to the signer, and the sums agree modulo 2^32 |
| TamperEvidence.AcceptedIdDetermines | blockchain/v0.3/transaction/transaction_is_valid.c:49-51 | two accepted transactions of one id and equally many outputs agree in references and output digests, or collide |
| TamperEvidence.ChangeIsRefused | blockchain/v0.3/transaction/transaction_is_valid.c:49-51 | other references or output digests under the id of an accepted transaction are refused, or collide |
| TamperEvidence.RedirectionIsRefused | blockchain/v0.3/transaction/transaction_is_valid.c:49-51 | so is an output of another amount or owner, with its own digest |
| TamperEvidence.OnlyDigestsAndSumMatter | blockchain/v0.3/transaction/transaction_is_valid.c:45-79 | the verdict depends on outputs through their digests and their 32-bit sum alone |
| Create.CheckUnspent | blockchain/v0.3/transaction/transaction_create.c:14-35 | true exactly when some input agrees with the entry in the first four bytes of all three digests |
| Create.CheckPool | blockchain/v0.3/transaction/transaction_create.c:45-52 | true exactly when some pooled transaction uses the entry in that sense |
| PoolCheck.UsedByBytes | blockchain/v0.3/transaction/transaction_create.c:26-31 | an entry counts as used exactly when some pooled input agrees with it at positions 0 to 3 of all three digests |
| PoolCheck.EligibleByBytes | blockchain/v0.3/transaction/transaction_create.c:64-86 | an owner's entry is selectable exactly when each pooled input differs from it at one of these positions |
| PoolCheck.OtherTransactionIsFree | blockchain/v0.3/transaction/transaction_create.c:26-31 | an output of another transaction of the same block is selectable when the transaction ids differ in front |
| PoolCheck.OnlyFrontsMatter | blockchain/v0.3/transaction/transaction_create.c:26-31 | bytes of a pooled input's digests past the fourth change no answer |
| Create.SelectUnspentIn | blockchain/v0.3/transaction/transaction_create.c:64-86 | an eligible entry becomes an input and adds its amount in 32 bits; any other changes nothing |
| Create.CutIsFirst | blockchain/v0.3/transaction/transaction_create.c:173-180 | the selection stops after the first entry that makes the total enough, having visited at least one if there is one |
| Create.Select | blockchain/v0.3/transaction/transaction_create.c:172-180 | the loop visits that many entries and yields the inputs and the 32-bit total of the eligible ones among them |
| Create.TxInSign | blockchain/v0.3/transaction/tx_in_sign.c:12-47 | the first entry with the output digest decides; no entry, a foreign entry or a failing signature leave the input unsigned |
| Create.SignAll | blockchain/v0.3/transaction/tool.c:13-25 | inputs are signed in place and in order, and the first failure ends the signing |
| Create.TransactionCreate | blockchain/v0.3/transaction/transaction_create.c:153-198 | what creation returns, or that it returns nothing |
| CreateLaws.SigningStops | blockchain/v0.3/transaction/tool.c:13-25 | exactly the inputs before the first failure are signed, each by its own lookup; that one and all behind it stay as they were |
| CreateLaws.InputSignedExactlyWhen | blockchain/v0.3/transaction/tx_in_sign.c:12-47 | an input is signed exactly when the first entry with its output digest is the signer's own and ECDSA succeeds, and only its signature changes |
| CreateLaws.ForeignInputStays | blockchain/v0.3/transaction/tx_in_sign.c:38-41 | an input that names another owner's output stays as it was, and so does every input behind it |
| CreateLaws.SendAmountLaw | blockchain/v0.3/transaction/transaction_create.c:98-141 | outputs add up to the total, the amount goes to the receiver, change to the sender exactly when there is some; it fails exactly for amount zero |
| CreateLaws.CreatedPays | blockchain/v0.3/transaction/transaction_create.c:173-197 | a created transaction names exactly the entries taken, has the right id, and pays the amount and the change |
| CreateLaws.CreateFails | blockchain/v0.3/transaction/transaction_create.c:173-192 | with both keys, creation fails exactly when the amount is zero or no prefix of the list is enough in 32 bits |
| CreateLaws.CreateFailsExactly | blockchain/v0.3/transaction/transaction_create.c:181-192 | below 2^32 it fails exactly when the amount is zero or more than all that is eligible |
| CreateLaws.CreateTakesShortestPrefix | blockchain/v0.3/transaction/transaction_create.c:173-186 | it takes the eligible entries of the shortest prefix worth the amount, and spends all they hold |
| CreateLaws.SignedInputsOk | blockchain/v0.3/transaction/tx_in_sign.c:22-46 | without collisions signing finds the right outputs though it looks up by output digest alone, and validation accepts the inputs exactly when ECDSA never failed |
| CreateLaws.CreatedIsValid | blockchain/v0.3/transaction/transaction_create.c:187-197 | a created transaction passes validation on the same list exactly when ECDSA signed every input, a failure being ignored |
| Difficulty.HashMatchesDifficulty | blockchain/v0.3/hash_matches_difficulty.c:11-33 | the byte loop and the shift accept exactly the digests that, read big-endian, are below 2^(256 - difficulty) |
| Difficulty.MeetsByBits | blockchain/v0.3/hash_matches_difficulty.c:14-32 | these are the digests whose highest bits, as many as the difficulty, are zero |
| Difficulty.MeetsMonotone | blockchain/v0.3/hash_matches_difficulty.c:14-32 | a digest that meets a difficulty meets every lower one |
| Difficulty.MeetsExtremes | blockchain/v0.3/hash_matches_difficulty.c:14-32 | difficulty 0 accepts all digests, difficulty 256 only the zero digest |
| Blocks.ComputeBlockHash | blockchain/v0.3/block_hash.c:26-61 | the digest covers the header, the data up to its length, and the transaction ids in order |
| Layouts.HashedBlock | blockchain/v0.3/block_hash.c:33-55 | at which offset of the hashed bytes each header field and the data stand |
| Layouts.HashedTransactionId | blockchain/v0.3/block_hash.c:10-18 | and each transaction id, behind the data |
| Layouts.GenesisContents | blockchain/v0.3/blockchain_create.c:8-50 | the header and the data of the genesis block |
| Blocks.IsEmpty | blockchain/v0.3/transaction/coinbase_is_valid.c:9-25 | true exactly for a buffer of zeros |
| Blocks.CoinbaseIsValid | blockchain/v0.3/transaction/coinbase_is_valid.c:33-75 | the verdict on a coinbase, both ways |
| TamperEvidence.CoinbaseUpToFreedoms | blockchain/v0.3/transaction/coinbase_is_valid.c:33-75 | exactly the created coinbase is accepted, up to the end of its mark and the owner and digest of its output |
| Blocks.ValidateTransactions | blockchain/v0.3/block_is_valid.c:10-31 | a valid coinbase first, valid transactions behind it, and at least one transaction |
| Blocks.BlockIsValid | blockchain/v0.3/block_is_valid.c:51-91 | the verdict on a block, both ways, with the genesis comparison at index 0 |
| ValidChains.BlockAcceptedExactlyWhen | blockchain/v0.3/block_is_valid.c:51-91 | a block is accepted behind another exactly when it is the genesis block, or follows it with right digests, is below its bound, and its transactions may stand |
| ValidChains.ValidationSuffices | blockchain/v0.3/block_is_valid.c:51-91 | of any chain whose blocks are all accepted, mined or not: links, digests, work, one coinbase of fifty, right ids, and inputs signed by the owners of outputs of earlier blocks |
| ValidChains.IndicesAreRight | blockchain/v0.3/block_is_valid.c:63-65 | the i-th block has index i, while the genesis block does not come again |
| ValidChains.GenesisComesAgain | blockchain/v0.3/block_is_valid.c:60-62 | it can come again |
| ValidChains.RunIsAccepted | cli/mine.c:53-72 | what a run without list commands builds is accepted from the start |
| Mining.BlockNode.constructor | blockchain/v0.3/block_create.c:11-42 | the new block is linked to its predecessor, its data truncated to the buffer |
| Mining.DataIsKept | blockchain/v0.3/block_create.c:17-33 | the first 1024 bytes given are kept, the rest of the buffer is zero |
| Mining.LeastNonce | blockchain/v0.3/block_mine.c:14-25 | the nonce of a mined block meets the difficulty and no smaller one does |
| Mining.MinedIsLeast | blockchain/v0.3/block_mine.c:14-25 | only nonce and digest change, the digest is that of the bytes and below the bound, and with no smaller nonce would be |
| Mining.MinableExactlyWhen | blockchain/v0.3/block_mine.c:14-25 | the search ends exactly when some nonce gives such a digest |
| Mining.BlockNode.Mine | blockchain/v0.3/block_mine.c:7-28 | the search ends with the least nonce and the digest of the final block stored, and nothing else changed |
| Mining.CoinbaseCreate | blockchain/v0.3/transaction/coinbase_create.c:13-97 | the coinbase that is made |
| Mining.CoinbaseIsAccepted | cli/handle_mine.c:28-42 | the created coinbase is always accepted |
| Cli.Blockchain.constructor | blockchain/v0.3/blockchain_create.c:8-50 | the initial chain is the genesis block alone, with nothing unspent |
| Cli.Blockchain.Update | blockchain/v0.3/transaction/update_unspent.c:25-66 | the list after the update, in place |
| Cli.State.List | cli/unspent_list.c:9-60 | listing reorders the unspent outputs by amount and changes nothing else |
| Cli.State.HandleSend | cli/handle_send.c:36-71 | the whole new state after a send, and its status |
| Cli.State.FilterPool | cli/mine.c:48-51 | as many removals as the pool is long leave exactly the valid transactions, in order |
| Cli.State.Mine | cli/mine.c:43-73 | the whole new state after mining, for success and for failure |
| Cli.State.HandleMine | cli/handle_mine.c:8-45 | the whole new state after the mine command, and its status |
| Hex.BytesToHex | cli/handle_info.c:9-25 | two lower-case digits a byte |
| Hex.CheckString | cli/tools.c:63-82 | true exactly for hexadecimal text; the address is lower-cased in place up to the first other character |
| Hex.ParsePub | cli/tools.c:92-130 | the key an address denotes, or none, and what becomes of the address |
| Hex.HexRoundTrip | cli/tools.c:92-130 | decoding undoes encoding on every key |
| Hex.DecodedReads | cli/tools.c:92-130 | encoding a decoded key gives back the first 130 characters in lower case |
| Addresses.TextOfBytes | cli/handle_info.c:9-25 | the two characters of each byte, the upper half first |
| Addresses.RefusedExactlyWhen | cli/tools.c:92-130 | an address denotes no key exactly when it is shorter than 130 characters or has one that is no digit |
| Addresses.TextDenotesKey | cli/tools.c:63-130 | every text of a key, in whatever case, denotes the key |
| Addresses.SendToText | cli/handle_send.c:9-71 | a send to a text of a key changes nothing when the key is no point; otherwise a wallet that signs pays that point, exactly when the amount is positive and spendable |
| Addresses.ReceiverOfText | cli/handle_send.c:9-28 | a text of a key, in whatever case, denotes the point the key is, or no receiver |
| Addresses.NothingWithoutWallet | cli/handle_mine.c:16-20 | without a wallet nothing is sent and nothing mined |
| ChainLaws.MineCommits | cli/mine.c:48-72 | what is mined is the tip's successor with the coinbase and the accepted transactions; it is appended exactly when the index can grow and the tip's digest is right |
| ChainLaws.MineNeverFails | cli/mine.c:53-65 | in every reachable state with a wallet a mine command that ends appends its block, if and only if the chain is shorter than 2^32 |
| ChainLaws.ReachedChain | blockchain/v0.3/block_is_valid.c:60-86 | every chain of a run is linked, indexed and sealed from the genesis block on, and every block meets its difficulty |
| ChainLaws.DifficultyBound | blockchain/v0.3/blockchain_difficulty.c:26-51 | block n > 0 has difficulty at most (n - 1) / 5, within the test's range up to block 1285 |
| ChainLaws.CandidateDifficulty | cli/mine.c:53-55 | the block about to be mined has a difficulty the test can read while the chain has at most 1285 blocks |
| ChainLaws.DifficultyMoves | blockchain/v0.3/blockchain_difficulty.c:26-51 | it moves by at most one, and only behind a block of positive index divisible by five |
| ChainLaws.SlowerIsNotHarder | blockchain/v0.3/blockchain_difficulty.c:34-49 | a slower interval never gives the higher difficulty; it rises only after a short and falls only after a long one |
| Retarget.MovesExactlyWhen | blockchain/v0.3/blockchain_difficulty.c:26-51 | up by one exactly when due and less than 2 seconds passed, down by one exactly when due and more than 10 passed and there is something to give up |
| Retarget.ShortChains | blockchain/v0.3/blockchain_difficulty.c:17-33 | what follows of fewer than five blocks |
| Retarget.RunMovesExactlyWhen | blockchain/v0.3/blockchain_difficulty.c:26-51 | the same for block n + 1 of every chain a run builds, by the timestamps of blocks n - 4 and n modulo 2^64 |
| ChainLaws.TipDeterminesChain | blockchain/v0.3/block_hash.c:33-55 | equal tip digests mean equal chains, block for block, or two blocks collide |
| ChainLaws.RunsWithTheSameTip | cli/handle_mine.c:10-21 | the same for the chains of any two runs |
| TipLaws.TipDeterminesLedger | blockchain/v0.3/block_hash.c:33-55 | two runs with the same tip digest have created the same entries, spent the same references and have the same outputs unspent, or something on them collides |
| UnspentLaws.UpdateIsSpendThenAppend | blockchain/v0.3/transaction/update_unspent.c:41-63 | no payment of a block takes an output of the same block: the update is all removals from the old list, then all additions |
| Soundness.SendFits | blockchain/v0.3/transaction/transaction_create.c:45-86 | a new transaction joins the pool without spending any entry more often than the list holds it |
| Soundness.PoolNeverOverspends | blockchain/v0.3/transaction/transaction_create.c:14-52 | in every reachable state the pool names each entry at most as often as the list holds it |
| Soundness.ReachedSound | cli/mine.c:43-73 | the invariant of all runs: chain, unspent list, pool and signatures fit together |
| Soundness.OnlyOwnersSpend | blockchain/v0.3/transaction/transaction_is_valid.c:53-75 | every input of every payment on the chain names an output of an earlier block and is signed by its owner |
| Conservation.PaymentsBalance | blockchain/v0.3/transaction/transaction_is_valid.c:74-79 | valid payments create exactly what they spend, less, for each, the multiples of 2^32 in what it names |
| Conservation.UnspentIsCreatedMinusSpent | blockchain/v0.3/transaction/update_unspent.c:9-63 | in every reachable state the unspent outputs are, with multiplicities, those created minus those the payments name |
| Conservation.SupplyIsFiftyABlock | blockchain/v0.3/transaction/update_unspent.c:41-63 | they are worth fifty coins a block less what payments lost; exactly that if and only if no payment named 2^32 or more, so while it fits 32 bits; and always that modulo 2^32 |
| Conservation.SumUnspent | cli/tools.c:46-54 | the displayed sum is the exact total, in 32 bits |
| Accounts.MineMovesBalances | blockchain/v0.3/transaction/update_unspent.c:41-63 | mining changes what each owner has by what the block pays that owner, less the owner's outputs the pool named |
| Accounts.MinePaysEveryone | blockchain/v0.3/transaction/update_unspent.c:54-62 | every output of the coinbase and of the whole pool is in the unspent list afterwards |
| Accounts.FirstBlock | cli/handle_mine.c:8-45 | the premises can be met: any key can mine the first block, and then has fifty coins |
| Accounts.SpendableIsBalance | blockchain/v0.3/transaction/transaction_create.c:64-86 | what a selection can find is at most what the owner has beyond what the pool names, and all of it when no entry of the owner clashes with another |
| Accounts.SpendableIsBalanceExactlyWhen | blockchain/v0.3/transaction/transaction_create.c:26-31 | it is all of it for every pool if and only if no entry of the owner clashes with another |
| Accounts.SendWithinBalance | cli/handle_send.c:36-71 | then a send succeeds exactly for a positive amount within that balance |
| Progress.ReachedPoolValid | cli/mine.c:10-16 | in every reachable state all pooled transactions are valid |
| Progress.MineTakesThePool | cli/mine.c:48-55 | a mined block holds the whole pool, in order, behind the coinbase |
| Progress.EasyMineEnds | blockchain/v0.3/block_mine.c:14-25 | at difficulty 0 the search ends at once |
| Progress.SelectionNeverWraps | blockchain/v0.3/transaction/transaction_create.c:82-83 | while fifty coins a block fit 32 bits no total of a selection wraps |
| Progress.PooledPaysExactly | blockchain/v0.3/transaction/transaction_is_valid.c:74-79 | then validation's sums do not wrap either, and a pooled transaction pays exactly what it takes |
| Progress.SendSucceedsExactly | cli/handle_send.c:41-70 | a transaction is made exactly for a valid address and a positive, spendable amount, and joins the pool exactly when all its inputs were signed; otherwise nothing changes |
| Progress.CreatedIsAccepted | cli/handle_send.c:42-60 | in a reachable state a created transaction is accepted exactly when all its inputs were signed |
| Progress.CleanOrCollision | blockchain/v0.3/transaction/tx_out_create.c:20-24 | a chain of a run is clean, or exhibits a collision of outputs or a digest like a coinbase's mark |
| ExactRemoval.UsedIsNamedExactlyWhen | blockchain/v0.3/transaction/transaction_create.c:26-31 | the comparison of prefixes finds exactly the named entries, for every pool that fits the list, if and only if prefixes tell different references apart |
| ExactRemoval.PrefixFreeExactly | blockchain/v0.3/transaction/transaction_create.c:26-31 | no entries clash exactly when references differ and prefixes tell them apart |
| ExactRemoval.PrefixClashIsSkipped | blockchain/v0.3/transaction/transaction_create.c:26-31 | with two clashing entries, a payment made of the first leaves the other unselectable though nothing names it |
| ExactRemoval.TakenGoesOn | blockchain/v0.3/transaction/transaction_create.c:173-180 | within every output digest a selection goes on in list order where the pool stopped |
| ExactRemoval.SpendTakesTheNamed | blockchain/v0.3/transaction/update_unspent.c:46-53 | inputs in list order, naming references that stand in the list once, take exactly the entries they name |
| ExactRemoval.ListKeepsOrderExactlyWhen | cli/unspent_list.c:21-22 | a list command keeps every order of inputs right if and only if it moves no entry past another of the same output digest |
| ExactRemoval.StableSortKeepsClasses | cli/unspent_list.c:44-60 | every stable sort by amount is such a command |
| ExactRemoval.MineRemovesExactlyTheNamed | blockchain/v0.3/transaction/update_unspent.c:41-63 | after sends by owners whose entries clash with none, and list commands that keep equal digests in order, the block removes exactly the named entries, keeps the order, and appends its outputs |
| References.SpendAddsUpExactlyWhen | blockchain/v0.3/transaction/update_unspent.c:46-53 | the references left and the references named make up the list if and only if the inputs name, of each digest, the foremost entries |
| References.CommitAddsUpExactlyWhen | blockchain/v0.3/transaction/update_unspent.c:41-63 | a block keeps created, spent and unspent references in balance if and only if its payments do so |
| References.NoReferenceSpentTwice | blockchain/v0.3/transaction/update_unspent.c:41-63 | in every tidy run the references created are, with multiplicities, those unspent and those spent |
| Reordering.SendListMine | cli/unspent_list.c:21-22 | a list command that exchanges two equal entries between a send and its block leaves the spent entry in the list |
| Reordering.ListBetweenSendAndMine | blockchain/v0.3/transaction/update_unspent.c:9-16 | the run that then spends a reference twice that was created once |
| TwinOutputs.SplitCoin | blockchain/v0.3/transaction/transaction_create.c:98-141 | half a coin sent to oneself and mined makes two entries of one reference |
| TwinOutputs.EqualOutputsBreakTheBooks | blockchain/v0.3/transaction/transaction_create.c:14-52 | the run, without a list command, after which a reference created twice and spent once is unspent twice |
| DistinctRefs.ReferencesDifferExactlyWhen | blockchain/v0.3/transaction/unspent_tx_out_create.c:11-27 | references created on a clean chain all differ if and only if no transaction on it has two equal outputs, or something collides |
| DistinctRefs.BooksBalance | blockchain/v0.3/transaction/update_unspent.c:41-63 | without such transactions, clashes of prefixes and list commands that move ties, references created are those unspent and those spent |
| OldestFirst.SpendLeavesSurvivors | blockchain/v0.3/transaction/update_unspent.c:46-53 | for any list and inputs, of each digest as many entries go as inputs carry it, the foremost first |
| OldestFirst.RemovesTheNamedExactlyWhen | blockchain/v0.3/transaction/update_unspent.c:46-53 | the removed entries are the named ones if and only if the inputs name the foremost of each digest |
| Endianness.SwapEndian | blockchain/v0.3/provided/_endianness.c:26-37 | the exclusive-or loop reverses a buffer of any size in place |
| Endianness.SwapTwice | blockchain/v0.3/provided/_endianness.c:26-37 | swapping twice restores the buffer |
| Endianness.SwapKeepsTheNumber | blockchain/v0.3/provided/_endianness.c:26-37 | the swapped bytes, read in the other order, are the same number |
| Endianness.SwapReads32 | blockchain/v0.1/blockchain.h:115-120 | the macro puts a 32-bit number of the other byte order right |
| Endianness.SwapReads64 | blockchain/v0.1/blockchain.h:115-120 | of a 64-bit number it gives the upper half |
| FormatV01.WriteBlocks | blockchain/v0.1/blockchain_serialize.c:36-45 | the bytes of the block area |
| FormatV01.ReadBlock | blockchain/v0.1/blockchain_deserialize.c:99-127 | one round of the loop: read, swap if the byte order is the other one, give up as soon as a read comes up short |
| FormatV01.ReadBlocks | blockchain/v0.1/blockchain_deserialize.c:89-131 | the blocks read, or none |
| FormatV01.BlocksReadBack | blockchain/v0.1/blockchain_deserialize.c:89-131 | reading undoes writing and leaves the bytes behind untouched |
| FormatV01.BlocksReadBackExactly | blockchain/v0.1/blockchain_deserialize.c:89-131 | exactly when all data areas are within the buffer and zero past their length |
| FormatV01.ForeignReadsBackExactly | blockchain/v0.1/blockchain_deserialize.c:105-118 | on a machine of the other byte order exactly when all timestamps and nonces are zero, for the swap keeps their upper halves |
| FormatV01.NoForeignChain | blockchain/v0.1/blockchain_deserialize.c:105-118 | so no chain with the genesis block is read back there |
| FormatV01.TruncationIsDetected | blockchain/v0.1/blockchain_deserialize.c:89-131 | no proper prefix of a block area is read as that many blocks |
| FormatV01.BlockAreaDetermines | blockchain/v0.1/blockchain_serialize.c:36-45 | equally many blocks whose bytes start alike are the same blocks |
| FormatV03.WriteTransactions | blockchain/v0.3/blockchain_serialize.c:15-57 | the bytes of a list of transactions |
| FormatV03.Serialize | blockchain/v0.3/blockchain_serialize.c:91-133 | the bytes of a file |
| FormatV03.ReadTransactions | blockchain/v0.3/blockchain_deserialize.c:9-46 | the transactions of a block, with -1 read as a NULL list and other negative counts as empty |
| FormatV03.Deserialize | blockchain/v0.3/blockchain_deserialize.c:70-112 | a refusal, a state, or that the bytes ran out |
| Layouts.RefusedExactlyWhen | blockchain/v0.3/blockchain_deserialize.c:54-60 | a file is refused exactly when its first seven bytes are not "HBLK" and "0.3" |
| Layouts.OlderVersionsAreRefused | blockchain/v0.3/blockchain_deserialize.c:54-60 | so is every file of version 0.1 or 0.2 |
| Layouts.WrittenIsNotRefused | blockchain/v0.3/blockchain_serialize.c:63-79 | what is written never is |
| Layouts.LoadedCounts | blockchain/v0.3/blockchain_deserialize.c:89-109 | what is loaded has as many blocks and outputs as the header says |
| Layouts.NegativeCountIsEmpty | blockchain/v0.3/blockchain_deserialize.c:16-22 | a negative count other than -1 is read as an empty list |
| FormatV03.TransactionSize | blockchain/v0.3/blockchain_serialize.c:9-12 | the documented sizes of a transaction's parts |
| FormatV03.FileSize | blockchain/v0.3/blockchain_serialize.c:87-89 | the documented place and size of the unspent outputs |
| Layouts.FileLayout | blockchain/v0.3/README.md:1578-1591 | the documented offsets of the header, the blocks and the unspent outputs |
| Layouts.CoreLayout | blockchain/v0.3/README.md:1597-1611 | those of a block's header, data and digest, in both versions |
| Layouts.BlockLayout | blockchain/v0.3/README.md:1612-1615 | those of the count of transactions, with -1 for NULL, and of the transactions |
| Layouts.TransactionLayout | blockchain/v0.3/README.md:1622-1629 | those of a transaction's id, counts and lists |
| Layouts.InputRecord | blockchain/v0.3/README.md:1622-1629 | where each input stands |
| Layouts.OutputRecord | blockchain/v0.3/README.md:1622-1629 | where each output stands |
| Layouts.InputLayout | blockchain/v0.3/README.md:1637-1643 | the documented offsets of an input |
| Layouts.OutputLayout | blockchain/v0.3/README.md:1650-1655 | of an output |
| Layouts.UnspentLayout | blockchain/v0.3/README.md:1662-1669 | of an unspent output |
| FormatV03.BlockReadsBackExactly | blockchain/v0.3/blockchain_serialize.c:115-123 | a block is read back exactly when its data area is zero past its length and it has no list if its index is 0; a NULL list of another index is kept |
| FormatV03.LoadUndoesSave | blockchain/v0.3/blockchain_deserialize.c:83-109 | loading a saved file gives back the chain and the unspent list, whatever follows in the file, exactly when that holds of every block |
| FormatV03.ReachedStateSurvives | blockchain/v0.3/blockchain_serialize.c:104-130 | so for every reachable state whose lists fit the counters |
| FormatV03.BlockComesBack | blockchain/v0.3/blockchain_serialize.c:117-123 | what comes back of any block: of index 0 everything but the list, whose bytes are taken for what follows; of any other all of it |

## Left out

- Objects on the chain and in lists: transactions, inputs, outputs and list entries are values, so sharing of one transaction between pool and block is not modelled; blocks under construction are objects.
- The `load` command as a step: it replaces chain and unspent list under an existing pool, so nothing is promised about the pool afterwards; loading is covered by the round trip.
- Files of the other byte order: of version 0.1 the reading of the block area is modelled, not the count before it, which is never swapped; version 0.3 does not swap at all, and one byte order is modelled. Of version 0.1 the block area only.
- Reads past the end of a version 0.3 file and data lengths beyond the buffer: the C code then uses unwritten memory or writes past the buffer; the model answers `Garbage`, or None.
- Difficulties above 256: the C test would read past the digest; the model requires at most 256, and DifficultyBound shows when that holds.
- A block whose data length exceeds the buffer: the C validity check hashes past the buffer before refusing it; the model refuses it first.
- Validation of an empty transaction: the C code compares its id with an uninitialised buffer; the model refuses it.
- Signing against an empty list: the C code reads an uninitialised pointer; the model finds no entry. Creation never signs against an empty list.
- Counters: list lengths are not bounded by the C `int`, except where files store them.
- Failing allocations, file descriptors, destructors and leaks.
- OpenSSL, key generation and key files: only through hash, sign and verify.
- The command loop, printing, help and information display, apart from the displayed sum.
- Version 0.2, and the rest of version 0.1: the same code without transactions.
