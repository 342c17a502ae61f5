# Mutiny: a Dafny model of the consensus core

Mutiny is a proof-of-work node written in Rust. This project models its hardest
parts and states, for all inputs, all runs or all reachable states, what they
guarantee. `dafny verify dfyconfig.toml` covers the whole project.

| area | modules |
|---|---|
| Bitcoin header store, best chain, purchase window | `HeaderStore`, `HeaderAcceptance`, `HeaderLedger`, `BestChain` |
| Bitcoin arithmetic and header rules | `CompactTarget`, `HeaderRules` |
| Bitcoin transaction parser | `TransactionFormat`, `Transaction` |
| Crash-safe snapshot store | `Storage`, `StorageProofs`, `StorageRecovery`, `StorageFailures`, `StorageProgress`, `StorageCodec` |
| Anti-equivocation mining signer | `Signer`, `SignerFormat`, `SignerProgress` |
| Concurrent request routing | `Duplex`, `DuplexCalls` |
| Provisional epochs, rewind, replay, reorg | `ChainReplay`, `ChainSchedule`, `ReorgQueues` |
| Dividends | `Dividends`, `DividendProofs`, `DividendRules`, `DividendRuns`, `DividendState` |
| Punishment | `Punishment`, `PunishmentProofs`, `PunishmentRules`, `PunishmentState`, `PunishedDividends` |
| Operations root, wallet backup, work curve, VarUInt | `OperationsRoot`, `Keystore`, `KeystoreBackup`, `KeyFiles`, `WorkUnits`, `VarUInt` |
| Shared | `Wrappers`, `Runs`, `Arithmetic`, `Bytes`, `Licences`, `Records`, `Codecs`, `Sorting`, `Crypto` |

## How the model is built

- Code that changes fields or loops is a class or a method with loop invariants, proved
  equal to a specification function; the theorems are about that function.
- The two crash protocols and the request router are machines: `Step` takes a state and
  an event, and an event may be a fault, a torn write, a killed process, a crash or another
  thread's move between any two steps of the source. A run is any sequence of events.
- Safety theorems hold for every run. Beside them stand theorems on what the code accepts,
  if and only if, and on what an undisturbed call achieves, said without naming the
  functions that decide it.
- A crash decides for each file name separately which of its contents since the last sync
  of its directory is left.
- SHA-256 is an unknown function to 32 bytes. Only `RootCommits` and `ScopeIff` need more,
  and ask it of the finitely many strings hashed for the two values compared.
- Signatures, fees, mempool admission, evidence checks and the effect of one block on the
  consensus fields are unknown functions or verdicts carried by an event.
- Large concrete rules are passed as values (`RuleSet`, `FileCodec`, `Parts`, `Rules`), so a
  theorem holds for every such value; `BitcoinRules`, `FileFormatsRoundTrip`,
  `BitcoinPartsOk` and `BackupLawful` supply the real ones.
- Integers are unbounded; every 8-, 16-, 32-, 64-, 128- and 256-bit bound that the source
  checks is written out.

## What the proofs found

- `recover` can get stuck for good. `LoadSucceedsIff` gives the exact condition on the files.
  It takes an operation that ends before one of two directory syncs, because the sync fails
  or the process is killed before it; `LoadAlwaysSucceeds` shows that no other fault leads
  there. Each of the two is enough, also in runs in which no call ever fails:
  - an operation ends before the sync that follows the removal of a staged snapshot, a retry
    drops the journal, and a crash brings the snapshot back under the number of the next
    commit (`StaleIsReachable`);
  - an operation ends before the sync that follows the meta rename, a retry removes the
    journal, and a crash keeps the removal and loses the rename, with the same result
    (`StaleAfterMetaSync`); or the crash keeps the journal of the next commit and loses the
    meta file it was written for (`AheadIsReachable`).
- `request_with_id` returns at crates/mutiny-duplex/src/lib.rs:416 with its table entry
  still present exactly when the payload does not fit a frame (`LeftoverIffTooLarge`,
  `LeftoverIsReachable`).
- A call that gives up removes the table entry of its RequestID whoever owns it
  (crates/mutiny-duplex/src/lib.rs:416-438). A second call of `request_with_id` with the same
  id can lose its entry to the timeout of the first and is then told that the reader
  stopped, in an open session (`SharedIdCutsOff`). `EntryLostIff` says exactly which steps
  take an entry away; with distinct ids, as `allocate_request_id` gives them, it cannot
  happen (`FreshIdsStayAttached`).
- On a store that does not hold the Devnet anchor block, every Mainnet purchase is refused.
  Line 338 of crates/mutiny-node/src/bitcoin_headers.rs activates Mainnet purchases, against
  the comment at line 319, but the best-chain walk that a purchase needs stops at the Devnet
  anchor only (line 489). `BestChainHashesByHeight` and `ValidatePurchaseWindow` also give
  the exact condition.
- `parse_transaction` takes any non-zero flag byte as the segwit flag and any witness, also
  an empty one. The flag is 1 (BIP 141, section Transaction ID), and a transaction with an
  empty witness must have the old form (BIP 144, section Serialization).
  `AcceptedBip144Iff` says exactly which accepted strings follow both; `OtherFlagAccepted`,
  `EmptyWitnessAccepted` and two concrete strings are the ones that do not.

## Model

| member | source | states |
|---|---|---|
| `HeaderStore.MainnetLineageHeaderAtHeight` | crates/mutiny-node/src/bitcoin_headers.rs:170-217 | the ancestry loop returns the header that parent links determine at a height, or the locked context header |
| `HeaderStore.LineageStable` | crates/mutiny-node/src/bitcoin_headers.rs:170-217 | a lineage lookup that succeeded gives the same header in every larger store |
| `HeaderStore.MainnetInputs` | crates/mutiny-node/src/bitcoin_headers.rs:219-299 | an accepted Mainnet header was judged by the rules on its true parent, on the header that opened its retarget period where one ends (else the parent), and on the timestamps of its eleven lineage predecessors |
| `HeaderStore.ImportOnePreserves` | crates/mutiny-node/src/bitcoin_headers.rs:373-433 | one accepted header keeps heights, chainwork and best tip equal to their recomputation; a tie keeps the old tip; nothing stored is lost |
| `HeaderStore.ImportAllPreserves` | crates/mutiny-node/src/bitcoin_headers.rs:369-443 | from a state the from-scratch check accepts, every accepted batch leaves such a state; rows only grow and best work never falls |
| `HeaderStore.ImportAllStores` | crates/mutiny-node/src/bitcoin_headers.rs:369-443 | every header of an accepted batch is stored |
| `HeaderStore.ImportAllSplits` | crates/mutiny-node/src/bitcoin_headers.rs:369-443 | one batch has the outcome of its parts imported one after the other |
| `HeaderStore.StuckImpossible` | crates/mutiny-node/src/bitcoin_headers.rs:679-742 | in a consistent store no set of rows leans on itself, so the fixpoint cannot stall |
| `HeaderStore.ValidateRows` | crates/mutiny-node/src/bitcoin_headers.rs:677-742 | the fixpoint ends, in any iteration order, and accepts exactly the stores whose every row is what its header and parent determine |
| `HeaderAcceptance.ContextHeaders` | crates/mutiny-node/src/bitcoin_headers.rs:91-122 | the eleven embedded headers stand at the heights up to the anchor, in order, and the last is the Mainnet anchor |
| `HeaderAcceptance.LineageIff` | crates/mutiny-node/src/bitcoin_headers.rs:170-217 | the ancestry loop finds a header exactly when a line of parent links leads to it |
| `HeaderAcceptance.LineHashes` | crates/mutiny-node/src/bitcoin_headers.rs:170-217 | each header of such a line hashes to the link that leads to it |
| `HeaderAcceptance.RowsAreFound` | crates/mutiny-node/src/bitcoin_headers.rs:197-206 | every stored row above the anchor is found under its hash at its height |
| `HeaderAcceptance.ContextIsFound` | crates/mutiny-node/src/bitcoin_headers.rs:187-196 | so is every context header |
| `HeaderAcceptance.TimesOfAncestors` | crates/mutiny-node/src/bitcoin_headers.rs:239-299 | the i-th of the times is that of the ancestor at the i-th height, and they are found exactly when all those ancestors are |
| `HeaderAcceptance.MainnetPassesIff` | crates/mutiny-node/src/bitcoin_headers.rs:219-299 | a header passes exactly when it stands above the anchor and the rules take it with its parent, the header 2015 below the parent where a period ends, and the eleven ancestors' times |
| `HeaderAcceptance.BitcoinPassesIff` | crates/mutiny-node/src/bitcoin_headers.rs:219-299 | with the real rules: a lawful target after the parent and its period, later than the median of the eleven ancestors' times, and a hash at or below the target |
| `HeaderAcceptance.DevnetPassesIff` | crates/mutiny-node/src/bitcoin_headers.rs:219-237 | on Devnet exactly when it has the fixed, canonical bits and a hash at or below their target |
| `HeaderAcceptance.NewHeaderIff` | crates/mutiny-node/src/bitcoin_headers.rs:369-433 | a new header with a known parent is taken exactly when its height fits 32 bits, it passes, and the chainwork fits 256 bits; the stored row and the tip are written out |
| `HeaderAcceptance.OrphanRefused` | crates/mutiny-node/src/bitcoin_headers.rs:147-168 | a new header without a known parent is refused |
| `HeaderAcceptance.KnownHeader` | crates/mutiny-node/src/bitcoin_headers.rs:373-390 | a stored header changes nothing; another with its hash is refused |
| `HeaderLedger.BuildIndex` | crates/mutiny-node/src/bitcoin_headers.rs:124-145 | indexing succeeds exactly for rows with distinct and correct hashes |
| `HeaderLedger.CheckBest` | crates/mutiny-node/src/bitcoin_headers.rs:744-768 | the stored best tip is accepted exactly when it is a row of greatest work |
| `HeaderLedger.CheckState` | crates/mutiny-node/src/bitcoin_headers.rs:635-768 | success exactly when every row and the best tip are what the stored headers determine |
| `HeaderLedger.SortedListDetermined` | crates/mutiny-node/src/bitcoin_headers.rs:435-443 | the list kept sorted by hash is determined by its contents |
| `HeaderLedger.HeaderState.ApplyOperation` | crates/mutiny-node/src/bitcoin_headers.rs:349-443 | succeeds exactly when the guards pass and the import loop accepts; the closing `check_state` never rejects; a refused batch changes nothing |
| `HeaderLedger.ImportLoop` | crates/mutiny-node/src/bitcoin_headers.rs:369-433 | the loop over the batch computes the specified import of the indexed list |
| `HeaderLedger.FindParent` | crates/mutiny-node/src/bitcoin_headers.rs:147-168 | parent height and work as the index has them, or the anchor |
| `HeaderLedger.ImportHeader` | crates/mutiny-node/src/bitcoin_headers.rs:374-417 | a header is already stored unchanged, refused, or appended as the row its parent determines |
| `BestChain.BestChainUnique` | crates/mutiny-node/src/bitcoin_headers.rs:466-497 | a store has at most one map of heights to ancestors of the best tip |
| `BestChain.BestChainHashesByHeight` | crates/mutiny-node/src/bitcoin_headers.rs:466-497 | the walk ends, and succeeds exactly on checked states whose tip has a stored ancestry down to a row that names the Devnet anchor; on every checked Devnet state with a tip it returns exactly one hash per height from anchor to tip, each the parent of the next; Mainnet states are refused |
| `BestChain.WalkIff` | crates/mutiny-node/src/bitcoin_headers.rs:475-497 | the walk succeeds exactly when parent links lead over fresh heights to a row that names the Devnet anchor |
| `BestChain.ReachesIffAncestry` | crates/mutiny-node/src/bitcoin_headers.rs:475-497 | on a consistent store that does not hold its policy's own anchor block the fresh-height test never decides: ancestry alone does |
| `BestChain.MainnetRefused` | crates/mutiny-node/src/bitcoin_headers.rs:475-497 | no tip of a consistent Mainnet store without the Devnet anchor block reaches that anchor |
| `BestChain.ValidatePurchaseWindow` | crates/mutiny-node/src/bitcoin_headers.rs:524-609 | under either policy, accepted exactly when the state checks out, the walk succeeds, the proof is six consecutive blocks of the walked chain (and stored descendants) and its eleven times are known; on Devnet that is the best chain and the payment time is the median of the eleven times ending at the first block; on Mainnet every purchase is refused |
| `BestChain.SixOnChain` | crates/mutiny-node/src/bitcoin_headers.rs:569-580 | the confirmation loop decides whether all six are on the best chain at their heights |
| `BestChain.ProofStored` | crates/mutiny-node/src/bitcoin_headers.rs:547-567 | the proof loop decides whether every header is stored at its height and linked |
| `BestChain.WindowTimes` | crates/mutiny-node/src/bitcoin_headers.rs:582-600 | the eleven times are those of the best chain, or of the anchor context below it |
| `BestChain.ContextTimes` | crates/mutiny-node/src/bitcoin_headers.rs:453-465 | the context ends at the anchor's time, with a block every ten minutes before it |
| `BestChain.WindowIsAncestry` | crates/mutiny-node/src/bitcoin_headers.rs:524-609 | the headers of an accepted window are ancestors of the best tip at the stated distances |
| `BestChain.WorkGrowsOnEdge` | crates/mutiny-node/src/bitcoin_headers.rs:239-299 | under the real rules chainwork strictly grows from every stored parent to its child |
| `BestChain.WorkGrowsOnPath` | crates/mutiny-node/src/bitcoin_headers.rs:239-299 | along every stored path of n edges chainwork grows by at least 2n |
| `BestChain.MainnetEdge` | crates/mutiny-node/src/bitcoin_headers.rs:239-299 | every stored Mainnet header has canonical bits that lawfully follow its parent and meets its own target |
| `CompactTarget.TargetValue` | crates/mutiny-bitcoin/src/lib.rs:293-317 | which bits decode, and the exact value they decode to |
| `CompactTarget.CompactBitsTotal` | crates/mutiny-bitcoin/src/lib.rs:339-367 | every positive 256-bit target has an encoding |
| `CompactTarget.CompactBitsMonotone` | crates/mutiny-bitcoin/src/lib.rs:339-367 | a larger target never gets smaller bits |
| `CompactTarget.EncodingDecodable` | crates/mutiny-bitcoin/src/lib.rs:293-367 | an encoding decodes exactly when its target is below 2^255 |
| `CompactTarget.CompactRoundTrip` | crates/mutiny-bitcoin/src/lib.rs:293-379 | for 0 < t < 2^255, encode-decode never raises t, loses less than 2^-15 of it, and re-encodes to the same bits |
| `CompactTarget.CanonicalIffProduced` | crates/mutiny-bitcoin/src/lib.rs:373-379 | the canonical check accepts exactly the decodable bits that encoding can produce |
| `CompactTarget.CanonicalBounds` | crates/mutiny-bitcoin/src/lib.rs:373-379 | a canonical target is positive and below 2^255 |
| `HeaderRules.Median11IsMedian` | crates/mutiny-bitcoin/src/lib.rs:449-453 | the sixth of the eleven times in ascending order |
| `HeaderRules.WorkBounds` | crates/mutiny-bitcoin/src/lib.rs:397-402 | work exists for exactly the canonical bits, is the floor of 2^256 over target plus one, and lies in 2..2^255 |
| `HeaderRules.ChainworkGrows` | crates/mutiny-bitcoin/src/lib.rs:404-411 | adding a header strictly raises chainwork while it fits 256 bits |
| `HeaderRules.PowLimit` | crates/mutiny-bitcoin/src/lib.rs:381-388 | the limit bits are canonical and decode to the limit |
| `HeaderRules.RetargetBounds` | crates/mutiny-bitcoin/src/lib.rs:413-434 | a retarget fails exactly when the scaled target is zero; otherwise the new bits are valid, at most four times and at least a quarter of the old target up to one floor and compact rounding (`RetargetValue` gives the value) |
| `HeaderRules.RetargetValue` | crates/mutiny-bitcoin/src/lib.rs:413-434 | with the period e taken from the two timestamps and kept within a quarter and four times two weeks, the new target is the floor of old times e over two weeks, cut at the limit, less only the compact rounding |
| `HeaderRules.OnTimeKeepsBits` | crates/mutiny-bitcoin/src/lib.rs:413-434 | a period of exactly two weeks keeps the bits |
| `HeaderRules.SlowerIsEasier` | crates/mutiny-bitcoin/src/lib.rs:413-434 | a later last timestamp never makes the target smaller, nor a retarget fail |
| `HeaderRules.AcceptedMainnetHeader` | crates/mutiny-bitcoin/src/lib.rs:465-487 | an accepted header takes a lawful target step, has proof of work, is later than the median and returns its work |
| `HeaderRules.MainnetHeaderIff` | crates/mutiny-bitcoin/src/lib.rs:465-487 | a header is accepted exactly when the parent bits are valid, its bits are the parent's or the retargeted ones, it is later than the median, and its hash is at or below its target |
| `HeaderRules.DevnetHeaderIff` | crates/mutiny-bitcoin/src/lib.rs:489-494 | the fixed bits, canonical, and a hash at or below their target |
| `Transaction.CompactSizeWritten` | crates/mutiny-bitcoin/src/lib.rs:151-188 | every 64-bit count is read back with any bytes after it |
| `Transaction.CompactSizeAccepted` | crates/mutiny-bitcoin/src/lib.rs:151-188 | only the shortest form of a count is accepted |
| `Transaction.BitcoinPartsOk` | crates/mutiny-bitcoin/src/lib.rs:195-263 | counts, inputs, outputs and witness stacks as the parser reads them satisfy the conditions of the format theorems |
| `Transaction.InputLayout` | crates/mutiny-bitcoin/src/lib.rs:211-217 | outpoint, script with its length, sequence |
| `Transaction.OutputLayout` | crates/mutiny-bitcoin/src/lib.rs:225-241 | eight little-endian bytes of value, script with its length |
| `Transaction.StackLayout` | crates/mutiny-bitcoin/src/lib.rs:243-251 | the number of items, then every item with its length |
| `Transaction.WireLayout` | crates/mutiny-bitcoin/src/lib.rs:195-263 | the order of all parts in both serialisations of a transaction with one input and one output |
| `TransactionFormat.ParseSerialised` | crates/mutiny-bitcoin/src/lib.rs:195-263 | every transaction with inputs and outputs parses back from its legacy and from its witness serialisation |
| `TransactionFormat.SerialiseParsed` | crates/mutiny-bitcoin/src/lib.rs:195-263 | every accepted byte string is the serialisation of what it parses to |
| `TransactionFormat.BothFormsAgree` | crates/mutiny-bitcoin/src/lib.rs:195-263 | both serialisations give the same outputs and the double hash of the legacy form as id |
| `TransactionFormat.AcceptedIffSerialisation` | crates/mutiny-bitcoin/src/lib.rs:195-263 | accepted exactly when the bytes serialise a transaction with some non-zero flag, and then only one |
| `TransactionFormat.AcceptedBip144Iff` | crates/mutiny-bitcoin/src/lib.rs:195-263 | accepted bytes follow BIPs 141 and 144 exactly when they carry no marker, or carry the flag 1 and are longer than the legacy form by more than marker, flag and one byte per input, that is, have a witness |
| `TransactionFormat.Bip144Accepted` | crates/mutiny-bitcoin/src/lib.rs:195-263 | every such serialisation of a transaction with inputs and outputs is accepted |
| `TransactionFormat.OtherFlagAccepted` | crates/mutiny-bitcoin/src/lib.rs:198-205 | with any other non-zero flag than 1 every transaction is accepted with the same id and outputs, against BIP 141; with a witness, only that byte is wrong |
| `TransactionFormat.EmptyWitnessAccepted` | crates/mutiny-bitcoin/src/lib.rs:243-251 | with nothing but empty witness stacks every transaction is accepted with the same id and outputs, against BIP 144 |
| `Transaction.ConcreteOtherFlag` | crates/mutiny-bitcoin/src/lib.rs:198-205 | a byte string with a witness that the real formats accept with the flag 2, and that is standard with the flag 1 |
| `Transaction.ConcreteEmptyWitness` | crates/mutiny-bitcoin/src/lib.rs:243-251 | a byte string with the flag 1 and no witness that the real formats accept |
| `Transaction.ReadElements` | crates/mutiny-bitcoin/src/lib.rs:211-245 | a counted loop reads what the format says and copies its raw bytes to the stripped form |
| `Transaction.ReadSection` | crates/mutiny-bitcoin/src/lib.rs:206-217 | a count within its limit and its elements, with both copied to the stripped form |
| `Transaction.ParseSections` | crates/mutiny-bitcoin/src/lib.rs:206-257 | the loops end at the end of the input with the stripped form complete |
| `Transaction.ParseBitcoinTransaction` | crates/mutiny-bitcoin/src/lib.rs:195-263 | the cursor parser returns outputs and txid exactly as the format determines them |
| `StorageProofs.RunsKeepInv` | crates/mutiny-node/src/storage.rs:366-414 | over every sequence of commits and loads cut by crashes, killed processes, torn writes or errors at any step, whatever mix of old and new names a crash leaves, the files stay within the protocol invariant |
| `StorageProofs.LoadReturnsLast` | crates/mutiny-node/src/storage.rs:469-480 | a load that completes returns exactly the payload and identity of the last commit whose meta rename took effect |
| `StorageProofs.CommitCompletes` | crates/mutiny-node/src/storage.rs:482-562 | a completed commit is last and permanent, its generation counts all commits, and only the newest two snapshots are left |
| `StorageProofs.RunsKeepFloor` | crates/mutiny-node/src/storage.rs:366-537 | no run loses an entry that was permanent when it began |
| `StorageProofs.LoadSucceedsIff` | crates/mutiny-node/src/storage.rs:366-480 | an undisturbed load succeeds exactly when no stale snapshot sits where the journal announces one and the journal does not belong to a later meta file; it then returns the last entry |
| `StorageRecovery.LoadAlwaysSucceeds` | crates/mutiny-node/src/storage.rs:366-480 | in every run in which the sync after a rollback removal and the sync after the meta rename do not fail, and the process is not killed before one of them, the next undisturbed load succeeds, and leaves no journal and no snapshot above meta |
| `StorageProgress.ReadBackIff` | crates/mutiny-node/src/storage.rs:469-480 | whatever is on disk, a load returns an entry exactly when meta names it and the snapshot has the right hash and unframes to it |
| `StorageProgress.RecoveryIff` | crates/mutiny-node/src/storage.rs:366-414 | recovery finishes, keeps or rolls back exactly in the stated states of journal, meta and staged snapshot, and fails in all others |
| `StorageProgress.CommitSucceeds` | crates/mutiny-node/src/storage.rs:482-562 | from every state in which a load succeeds, some undisturbed run commits the entry as the next generation |
| `StorageProgress.CommitOnlySucceeds` | crates/mutiny-node/src/storage.rs:482-562 | and every undisturbed run that ends, ends so |
| `StorageFailures.StaleIsReachable` | crates/mutiny-node/src/storage.rs:384-407 | a run of failing calls, or of killed processes and no failing call, never cut before the second of those syncs, reaches a state with a stale snapshot, on which every load fails |
| `StorageFailures.StaleAfterMetaSync` | crates/mutiny-node/src/storage.rs:366-414 | so does one never cut before the first |
| `StorageFailures.AheadIsReachable` | crates/mutiny-node/src/storage.rs:366-414 | such a run also reaches a state whose journal belongs to a lost meta file, on which every load fails |
| `StorageCodec.MetaRoundTrip` | crates/mutiny-node/src/storage.rs:103-172 | decoding an encoded meta gives it back |
| `StorageCodec.MetaUnique` | crates/mutiny-node/src/storage.rs:103-172 | an accepted meta file is the encoding of what it decodes to |
| `StorageCodec.JournalRoundTrip` | crates/mutiny-node/src/storage.rs:174-224 | decoding an encoded journal gives it back |
| `StorageCodec.JournalUnique` | crates/mutiny-node/src/storage.rs:174-224 | an accepted journal is the encoding of what it decodes to |
| `StorageCodec.SnapshotRoundTrip` | crates/mutiny-node/src/storage.rs:226-284 | decoding an encoded snapshot under its generation gives the payload back |
| `StorageCodec.SnapshotUnique` | crates/mutiny-node/src/storage.rs:226-284 | an accepted snapshot is the encoding of its payload |
| `StorageCodec.FileFormatsRoundTrip` | crates/mutiny-node/src/storage.rs:103-284 | the three file formats meet what the protocol theorems ask of them |
| `Signer.RunsKeepInv` | crates/mutiny-node/src/mining_signer.rs:135-323 | over every run of opens, authorizations, faults, torn writes and crashes, every signature is backed by a durable record |
| `Signer.OpenedStoreIsDurable` | crates/mutiny-node/src/mining_signer.rs:185-240 | every record visible in a store that opens is already on disk |
| `Signer.SameScopeSameCore` | crates/mutiny-node/src/mining_signer.rs:248-323 | any two emitted signatures with the same scope are over the identical core |
| `SignerFormat.RecordValidates` | crates/mutiny-node/src/mining_signer.rs:78-110 | a record that is written is accepted under its binding, with its own scope |
| `SignerFormat.ValidateIff` | crates/mutiny-node/src/mining_signer.rs:95-110 | a file is accepted under a binding exactly when it is the record of some height and some core of that network and licence, with that scope |
| `SignerFormat.FormatsDetermine` | crates/mutiny-node/src/mining_signer.rs:86-93 | a record determines its core |
| `SignerFormat.Tier3SameScope` | crates/mutiny-node/src/punishment.rs:305-354 | two cores that meet the Tier-3 test have one scope (`ScopeIff` gives the converse) |
| `SignerFormat.NeverEquivocates` | crates/mutiny-node/src/mining_signer.rs:185-323 | no two signatures of any run meet the Tier-3 equivocation test |
| `SignerProgress.ScopeIff` | crates/mutiny-node/src/mining_signer.rs:78-85 | unless the two hashed strings collide, two cores have one scope exactly when bytes 6 to 13 and 110 to 207 agree |
| `SignerProgress.AuthorizeOutcome` | crates/mutiny-node/src/mining_signer.rs:248-323 | an undisturbed authorization ends with the grant and its record on disk, also when the same record is there already; it is refused exactly when the signer has failed or the scope holds another record |
| `SignerProgress.GrantedIsSigned` | crates/mutiny-node/src/mining_signer.rs:248-323 | what was granted may be signed |
| `SignerProgress.FailureDisables` | crates/mutiny-node/src/mining_signer.rs:248-323 | after a failed call this signer grants nothing more |
| `SignerProgress.OpenIff` | crates/mutiny-node/src/mining_signer.rs:185-240 | opening succeeds exactly when the store is in order for the binding |
| `SignerProgress.InitializeOutcome` | crates/mutiny-node/src/mining_signer.rs:185-240 | initializing an empty directory publishes the authority file and opens; any other directory is refused |
| `SignerProgress.CandidatesValidate` | crates/mutiny-node/src/mining_signer.rs:86-110 | with the real formats every core of the signer's network and licence can be recorded |
| `Duplex.RunsKeepInv` | crates/mutiny-duplex/src/lib.rs:216-438 | in every interleaving of callers, timeouts, reader and close, the table, reader, queue and history stay consistent: taken and queued frames are exactly those marked for the queue, in order, and every answer has its frame |
| `Duplex.EveryFrameHasOneFate` | crates/mutiny-duplex/src/lib.rs:216-315 | each received frame goes to exactly one of a matching waiter, the queue or a session close; what was taken plus what is queued are the frames for the queue, once each and in order; no call is answered by anything but its own frame |
| `Duplex.EveryCallGetsItsOwn` | crates/mutiny-duplex/src/lib.rs:371-438 | a call gets at most one result, with its own RequestID and an expected type; both caps hold |
| `Duplex.AnswersReachTheirCalls` | crates/mutiny-duplex/src/lib.rs:262-284 | in every run a frame went to a waiter exactly when, at the moment it was matched, the table listed a call for its id that expected its type, and then to that call |
| `Duplex.ResponseIsDelivered` | crates/mutiny-duplex/src/lib.rs:262-284 | a frame that a listed call expects is put in its inbox, the entry is gone, the queue is unchanged |
| `Duplex.OtherFrameIsQueued` | crates/mutiny-duplex/src/lib.rs:281-313 | any other frame is queued, or closes the session exactly when the queue is full |
| `Duplex.RateOutcome` | crates/mutiny-duplex/src/lib.rs:238-260 | a frame is routed exactly when frames and bytes of its window stay within the limits |
| `Duplex.DrainTellsAll` | crates/mutiny-duplex/src/lib.rs:222-313 | the draining exit closes the session and tells every listed call, and no other |
| `Duplex.RegisterOutcome` | crates/mutiny-duplex/src/lib.rs:371-405 | a call is listed unless its id is in use or the table is full |
| `Duplex.TimeoutOutcome` | crates/mutiny-duplex/src/lib.rs:423-438 | a call without an answer can time out, and then removes its entry |
| `Duplex.RequestIsAnswered` | crates/mutiny-duplex/src/lib.rs:371-438 | in any open session with room a request followed by a fitting expected response returns that response and leaves table, queue and other calls as they were |
| `Duplex.NothingLeftAfterExit` | crates/mutiny-duplex/src/lib.rs:222-313 | after the draining exit, when the calls with fitting payloads have returned, the table holds only calls whose payload does not fit, and is empty if all fit |
| `Duplex.LateCallIsRemoved` | crates/mutiny-duplex/src/lib.rs:342-438 | whatever happens after the draining exit, a registered request with a fitting payload that has not read the closed flag yet can only be refused by it and remove itself, and is out of the table once it has returned |
| `Duplex.LeftoverIffTooLarge` | crates/mutiny-duplex/src/lib.rs:406-422 | a returning call leaves its entry behind exactly when its payload did not fit a frame |
| `Duplex.LeftoverIsReachable` | crates/mutiny-duplex/src/lib.rs:406-422 | one oversized request in a new session returns and leaves its entry |
| `DuplexCalls.RequestTakenIff` | crates/mutiny-duplex/src/lib.rs:371-386 | a request is taken exactly when it expects some type and the session is open |
| `DuplexCalls.CloseStopsRequests` | crates/mutiny-duplex/src/lib.rs:342-422 | whatever happens after a close, no call is taken and no frame is sent any more |
| `DuplexCalls.ReadErrorEnds` | crates/mutiny-duplex/src/lib.rs:222-313 | a read error closes the session, tells every listed call and empties the table |
| `DuplexCalls.EntryLostIff` | crates/mutiny-duplex/src/lib.rs:262-438 | in every reachable state a call loses its table entry exactly by its answer, by the drain, or by a call of the same id that gives up |
| `DuplexCalls.FreshIdsStayAttached` | crates/mutiny-duplex/src/lib.rs:371-438 | in every run in which no RequestID was used twice, no waiting call is left without a sender |
| `DuplexCalls.SharedIdCutsOff` | crates/mutiny-duplex/src/lib.rs:423-438 | a run in which the timeout of one call cuts off another with its id, in an open session |
| `DuplexCalls.DetachedIff` | crates/mutiny-duplex/src/lib.rs:432-436 | a waiting call is told of a gone sender exactly when it is neither listed nor matched |
| `Duplex.AllocateRequestId` | crates/mutiny-duplex/src/lib.rs:325-340 | a non-zero id of the right lane; the counter wraps at 64 bits |
| `Duplex.LanesDisjoint` | crates/mutiny-duplex/src/lib.rs:325-340 | opposite lanes never allocate the same id |
| `Duplex.LaneDistinct` | crates/mutiny-duplex/src/lib.rs:325-340 | fewer than 2^63 consecutive counter values of one lane give distinct ids |
| `ChainReplay.AdvanceTwice` | crates/mutiny-node/src/blocksync.rs:510-529 | advancing empty epochs in two goes is advancing once |
| `ChainReplay.ApplyAfterAdvance` | crates/mutiny-node/src/blocksync.rs:702-718 | a block applies to a provisionally advanced state exactly as to the state it was advanced from |
| `ChainReplay.ReplayRebuilds` | crates/mutiny-node/src/blocksync.rs:85-96 | replaying accepted blocks from Genesis never fails and rebuilds the same state |
| `ChainReplay.AnnouncedIgnoresProvisional` | crates/mutiny-node/src/blocksync.rs:1400-1443 | an announced child of the tip has the outcome it would have had without any provisional epoch; every other announced block is refused |
| `ChainReplay.ExtensionIgnoresProvisional` | crates/mutiny-node/src/blocksync.rs:2536-2574 | so does a straight extension by any number of blocks |
| `ChainReplay.StepKeepsInv` | crates/mutiny-node/src/blocksync.rs:1255-1299 | every advance, announced block, extension and reorg leaves the state determined by block list and tip epoch |
| `ChainReplay.RunsStayCanonical` | crates/mutiny-node/src/blocksync.rs:1400-1443 | from the first block on, after any mix of events, the state is the replay of its block list advanced to its tip epoch |
| `ChainReplay.SameBlocksAgree` | crates/mutiny-node/src/blocksync.rs:510-529 | two nodes with the same blocks agree however far each had advanced |
| `ChainReplay.FullReplayPasses` | crates/mutiny-node/src/blocksync.rs:1520-1553 | the full-replay comparison succeeds in every state a run can leave |
| `ChainReplay.WorkNeverFalls` | crates/mutiny-node/src/blocksync.rs:1255-1299 | the work of the adopted chain never falls |
| `ChainReplay.ApplyBlocks` | crates/mutiny-node/src/blocksync.rs:2586-2594 | the block loop of a sync |
| `ChainReplay.ReplayCanonicalBlocks` | crates/mutiny-node/src/blocksync.rs:85-96 | the replay loop, with every block encoded and decoded again |
| `ChainReplay.SumChainwork` | crates/mutiny-node/src/main.rs:7931-7940 | the work of all blocks |
| `ChainReplay.NodeState.AdvanceEmptyEpochs` | crates/mutiny-node/src/blocksync.rs:510-529 | the epoch loop, with the root computed once at the end; a failure leaves the failing epoch as tip, the epochs before it applied, and root, blocks and height unchanged |
| `ChainReplay.NodeState.ValidateAndApplyAnnouncedBlock` | crates/mutiny-node/src/blocksync.rs:1400-1443 | the rewind branch and the direct branch; a refused block changes nothing |
| `ChainReplay.NodeState.ExtendCanonicalChain` | crates/mutiny-node/src/blocksync.rs:2536-2574 | the extension branch; a refused block changes nothing |
| `ChainReplay.NodeState.ReconcileValidatedRemote` | crates/mutiny-node/src/blocksync.rs:1255-1299 | adopted exactly when the remote blocks replay from Genesis and have strictly more work, and then the block list is theirs; otherwise unchanged |
| `ChainSchedule.BuiltIncreasing` | crates/mutiny-node/src/blocksync.rs:702-713 | accepted blocks have strictly increasing epochs |
| `ChainSchedule.CanonicalFollowsSchedule` | crates/mutiny-node/src/blocksync.rs:702-718 | every state a run can leave is the first block followed by a fixed schedule: each later epoch ticks exactly once, in order, and then applies its block or is observed as empty, at the right height; height, tip and root are those of the block list |
| `ChainSchedule.AcceptedIffGood` | crates/mutiny-node/src/blocksync.rs:702-718 | blocks are accepted from Genesis exactly when each names the one before it, epochs increase, and the schedule can be performed |
| `ChainSchedule.EventEffects` | crates/mutiny-node/src/blocksync.rs:1255-1299 | an announced block or an extension is taken exactly when the longer list is such a list, a fork exactly when it is one and has more work, an advance exactly when its epochs can be performed; whatever is not taken changes nothing |
| `ChainSchedule.HeaviestOfferedWins` | crates/mutiny-node/src/blocksync.rs:1255-1299 | after any run in which a good branch was offered, the adopted chain has at least its work |
| `Dividends.ShareBounds` | crates/mutiny-protocol/src/lib.rs:935-962 | equal shares never exceed half the available Treasury, and no larger equal share fits |
| `DividendProofs.ExpiredByNextAward` | crates/mutiny-node/src/dividends.rs:64-88 | every older account has expired when the next award is due |
| `DividendProofs.TickKeeps` | crates/mutiny-node/src/dividends.rs:64-171 | an epoch keeps the reserve equal to the claimable amounts; it returns all or nothing of the old award and awards at most half the Treasury, on a boundary only |
| `DividendProofs.TickSucceedsIff` | crates/mutiny-node/src/dividends.rs:64-171 | an epoch fails exactly when an award is due and the Treasury sum or the new deadline leaves 64 bits |
| `DividendProofs.AwardSplitsEqually` | crates/mutiny-node/src/dividends.rs:122-158 | an award opens one account for every eligible licence, all with the same share, and no other (`AwardGoesTo` says which these are) |
| `DividendRules.AwardGoesTo` | crates/mutiny-node/src/dividends.rs:122-158 | a licence gets an account exactly when it is active or becomes so, its activation and the end of its suspension are not after the epoch, and it was never revoked; award epoch, deadline and amount are written out |
| `DividendRules.AwardAmount` | crates/mutiny-node/src/dividends.rs:64-171 | what is awarded at every epoch: half the Treasury in equal shares every 131072 epochs if anyone takes part, else nothing |
| `DividendProofs.PaymentConserves` | crates/mutiny-node/src/dividends.rs:245-358 | a payment conserves output value and takes exactly the claimed amount out of the Treasury |
| `DividendRules.PaymentIff` | crates/mutiny-node/src/dividends.rs:245-358 | a payment is accepted exactly when its terms hold, every input is a distinct, mature, authorised Treasury output, their sum fits 64 bits, and it pays the claimant with the change in one Treasury output |
| `DividendRules.PaymentEffect` | crates/mutiny-node/src/dividends.rs:245-358 | what is found at every outpoint afterwards |
| `DividendProofs.ClaimTakes` | crates/mutiny-protocol/src/lib.rs:998-1031 | an applied claim is signed by the owner and takes its amount from the claimant's account and from the reserve, and from nothing else |
| `DividendRules.ClaimIff` | crates/mutiny-protocol/src/lib.rs:998-1031 | a claim is applied exactly when a licence and its open account allow it; all conditions are written out |
| `DividendProofs.ClaimKeeps` | crates/mutiny-node/src/dividends.rs:245-391 | a paid claim leaves available Treasury and total value unchanged |
| `DividendProofs.OrdinaryKeeps` | crates/mutiny-node/src/main.rs:3504-3600 | an ordinary transaction never lowers the Treasury |
| `DividendRuns.RunsKeepInv` | crates/mutiny-node/src/dividends.rs:64-391 | in every run claimable amounts sum to the reserve, the reserve is backed by Treasury outputs, no licence has two accounts, and every award equals claims plus returns plus what is still claimable |
| `DividendState.CheckState` | crates/mutiny-node/src/dividends.rs:606-647 | success exactly when sums, deadlines, boundaries, uniqueness and known licences all hold |
| `DividendState.CheckedIff` | crates/mutiny-node/src/dividends.rs:606-647 | with distinct licences and accounts of the last boundary that are not due, the check passes exactly when the invariant of all runs holds and the Treasury sum fits 64 bits |
| `DividendState.RunsPassCheck` | crates/mutiny-node/src/dividends.rs:606-647 | every state a run leaves passes the check exactly when the Treasury sum fits 64 bits |
| `DividendState.NodeState.DrainExpired` | crates/mutiny-node/src/dividends.rs:68-86 | the draining loop returns what expired and keeps the rest in order |
| `DividendState.NodeState.ProcessEpoch` | crates/mutiny-node/src/dividends.rs:64-171 | expiry, then award, in place |
| `DividendState.NodeState.GatherInputs` | crates/mutiny-node/src/dividends.rs:276-311 | the input loop accepts distinct, mature, authorised Treasury inputs and adds them up |
| `DividendState.NodeState.ValidateAndApplyPayment` | crates/mutiny-node/src/dividends.rs:245-358 | the payment in place; a refused one changes nothing |
| `DividendState.NodeState.ApplyOperation` | crates/mutiny-node/src/dividends.rs:360-391 | the checks and the claim in place, equal to the specified claim; a refused one changes nothing |
| `PunishmentProofs.OffenceApplied` | crates/mutiny-protocol/src/lib.rs:881-923 | an offence adds its weight or revokes at 16, and never shortens a suspension |
| `PunishmentProofs.SuspensionBounds` | crates/mutiny-protocol/src/lib.rs:881-923 | an offence revokes exactly when the weight would reach 16, and otherwise suspends for 64 to 2^20 further epochs, twice as long for every strike |
| `PunishmentRules.OffenceEffect` | crates/mutiny-protocol/src/lib.rs:881-923 | when an offence can be applied, and all fields afterwards: weights 1, 2 and 4, the suspension by total weight, revocation at 16 |
| `PunishmentProofs.TickSucceeds` | crates/mutiny-node/src/punishment.rs:415-447 | the recomputation at an epoch never fails and agrees with the weights kept by addition |
| `PunishmentProofs.PunishKeeps` | crates/mutiny-node/src/punishment.rs:369-413 | applied evidence keeps weights equal to live offences and is consumed |
| `PunishmentRules.PunishIff` | crates/mutiny-node/src/punishment.rs:369-413 | evidence is accepted exactly when it is new, objective and applies to a known licence, and then changes that licence, the offences and the consumed ids only |
| `PunishmentRules.EpochForgets` | crates/mutiny-node/src/punishment.rs:415-447 | an epoch forgets exactly the offences that reach their expiry, activates what is due and changes nothing else |
| `PunishmentProofs.RunsKeepInv` | crates/mutiny-node/src/punishment.rs:369-447 | in every run each non-revoked licence weighs the sum of its live offences, revoked ones stay as they were, suspension ends never move back, consumed evidence is never forgotten |
| `PunishmentProofs.ExpiryNeverFails` | crates/mutiny-node/src/punishment.rs:415-447 | after every run the next expiry succeeds |
| `PunishmentProofs.EvidenceAppliesOnce` | crates/mutiny-node/src/punishment.rs:369-380 | an EvidenceID applies at most once, even after its offence has expired |
| `PunishmentProofs.RevocationIsPermanent` | crates/mutiny-protocol/src/lib.rs:897-911 | a revoked licence stays revoked with weight 16 and its revocation epoch |
| `PunishmentState.Tally` | crates/mutiny-node/src/punishment.rs:419-427 | the table of weights, failing exactly when some sum leaves one byte |
| `PunishmentState.NodeState.ExpireEvents` | crates/mutiny-node/src/punishment.rs:415-447 | expiry and recomputation in place |
| `PunishmentState.NodeState.ApplyOperation` | crates/mutiny-node/src/punishment.rs:369-413 | evidence applied in place; refused evidence changes nothing |
| `PunishmentState.CheckState` | crates/mutiny-node/src/punishment.rs:449-516 | success exactly when ids are distinct and consumed, offences are lawful and live, and licences carry their sums |
| `PunishmentState.CheckedIff` | crates/mutiny-node/src/punishment.rs:449-516 | with distinct licences and no weight sum past what one offence can add to the threshold, the check passes exactly when the invariant of all runs holds |
| `PunishmentState.RunsPassCheck` | crates/mutiny-node/src/punishment.rs:449-516 | every state a run leaves passes the check |
| `PunishedDividends.PunishedGetNothing` | crates/mutiny-node/src/main.rs:250-255 | whatever offences, epochs and registrations follow an offence, no award before the end of the suspension it brought, and none at all if it revoked the licence, opens an account for it |
| `ReorgQueues.RepairIsConsistent` | crates/mutiny-node/src/blocksync.rs:233-433 | from empty queues, no queued transaction is repeated or confirmed, every operation that names a transaction has it queued, every protocol-authorised transaction is named by a queued operation, operation ids are distinct |
| `ReorgQueues.CandidateFate` | crates/mutiny-node/src/blocksync.rs:328-341 | a candidate that is new, unconfirmed, bound if it pays a licence, and valid after those before it is queued unless it is a protocol payment whose operation was dropped |
| `ReorgQueues.QueuedAreValid` | crates/mutiny-node/src/blocksync.rs:316-341 | every queued transaction is valid after those queued before it |
| `ReorgQueues.OpsQueuedIff` | crates/mutiny-node/src/blocksync.rs:345-421 | an operation is queued exactly when it is the first admitted one with its id |
| `ReorgQueues.RepairFailsIff` | crates/mutiny-node/src/blocksync.rs:345-421 | the repair fails exactly when admission of an operation whose transaction is queued fails |
| `ReorgQueues.NodeQueues.RestoreTxs` | crates/mutiny-node/src/blocksync.rs:316-341 | the transaction loop with its set of ids seen |
| `ReorgQueues.NodeQueues.RestoreOps` | crates/mutiny-node/src/blocksync.rs:345-421 | the operation loop with its set of ids seen |
| `ReorgQueues.NodeQueues.RestoreReorgMempool` | crates/mutiny-node/src/blocksync.rs:233-433 | transactions, operations, final sweep |
| `OperationsRoot.EncodeInjective` | crates/mutiny-protocol/src/lib.rs:128-141 | the encoding determines the operation |
| `OperationsRoot.OperationBytes` | crates/mutiny-protocol/src/lib.rs:128-137 | type, version, length and payload are read off the encoding in this order |
| `OperationsRoot.RootIsTree` | crates/mutiny-protocol/src/lib.rs:1037-1071 | the root is the hash of a tree whose leaves, in order, are the operation ids, odd promotion included |
| `OperationsRoot.TreeHashInjective` | crates/mutiny-protocol/src/lib.rs:1033-1071 | equal hashes mean equal trees when the hashed strings do not collide |
| `OperationsRoot.RootCommits` | crates/mutiny-protocol/src/lib.rs:1037-1071 | two accepted lists of any lengths have equal roots only if they are the same list |
| `OperationsRoot.RootIff` | crates/mutiny-protocol/src/lib.rs:1037-1050 | a list has a root exactly when each operation precedes every later one, by type and then by id |
| `OperationsRoot.RootRecursion` | crates/mutiny-protocol/src/lib.rs:1051-1071 | the root joins the root of the first 2^k operations and that of the others, where 2^k is the largest power of two below the length |
| `OperationsRoot.RootOfOne` | crates/mutiny-protocol/src/lib.rs:1033-1071 | the root of one operation is its leaf |
| `OperationsRoot.JoinLevel` | crates/mutiny-protocol/src/lib.rs:1052-1068 | one level built from the one below |
| `OperationsRoot.ProtocolOperationsRoot` | crates/mutiny-protocol/src/lib.rs:1037-1071 | order check and level loop, which ends for every length |
| `Keystore.EntryLawful` | crates/mutiny-keystore/src/lib.rs:156-184 | an entry is read back, and only entries in order are accepted |
| `Keystore.EntryWritable` | crates/mutiny-keystore/src/lib.rs:509-519 | the encoder takes an entry exactly when its role and label are allowed and its key file names the same role, network and public key |
| `KeyFiles.MetadataIff` | crates/mutiny-keystore/src/lib.rs:156-184 | metadata is read off exactly the files that can be written with it |
| `KeyFiles.MetadataOfWritten` | crates/mutiny-keystore/src/lib.rs:308-343 | reading the metadata of a written file gives its role, network and public key |
| `KeyFiles.LabelBytes` | crates/mutiny-keystore/src/lib.rs:477-483 | labels are letters, digits, hyphens and underscores |
| `KeyFiles.EncodeIff` | crates/mutiny-keystore/src/lib.rs:493-534 | entries can be backed up exactly when there are at most 4096, each is a licence key with a proper label and a matching file, and no role and label repeat |
| `KeyFiles.DecodeIff` | crates/mutiny-keystore/src/lib.rs:536-606 | bytes decode to entries exactly when these ascend by role and label and encode to the bytes |
| `KeyFiles.BackupLayout` | crates/mutiny-keystore/src/lib.rs:493-534 | the bytes of a backup of ascending entries |
| `Keystore.DecodeEncoded` | crates/mutiny-keystore/src/lib.rs:493-606 | decoding an encoding gives the entries sorted by role and label |
| `Keystore.EncodeDecoded` | crates/mutiny-keystore/src/lib.rs:493-606 | every accepted byte string re-encodes to itself |
| `Keystore.EncodePermuted` | crates/mutiny-keystore/src/lib.rs:493-534 | the encoding, or the refusal, is the same for every permutation of the input |
| `KeystoreBackup.EncodeWalletBackup` | crates/mutiny-keystore/src/lib.rs:493-534 | the encoder loop computes the specified bytes |
| `KeystoreBackup.DecodeWalletBackup` | crates/mutiny-keystore/src/lib.rs:536-606 | the decoder loop computes the specified result |
| `KeystoreBackup.BackupLawful` | crates/mutiny-keystore/src/lib.rs:493-606 | the entry format satisfies the conditions of the format theorems |
| `WorkUnits.WorkUnitsFor` | crates/mutiny-consensus/src/lib.rs:37-64 | the binary search returns the least W, the only one, with W^25 * 65536^16 >= 2048^25 * min(L, 65536)^16 |
| `WorkUnits.AllocationMonotone` | crates/mutiny-consensus/src/lib.rs:37-68 | work per licence and capacity never fall as licences are added |
| `WorkUnits.CapacityFits` | crates/mutiny-consensus/src/lib.rs:66-68 | capacity fits 128 bits for every 64-bit licence count |
| `WorkUnits.TargetBounded` | crates/mutiny-consensus/src/lib.rs:74-93 | for a hash space and a unit of correction of any size, the source's being 2^256 and 2^32: a target exists exactly for some capacity; times capacity it never exceeds the space scaled by the correction, and unless capped falls short of it by less than one rounding of each division |
| `WorkUnits.TargetMonotone` | crates/mutiny-consensus/src/lib.rs:74-93 | in any such space more capacity never eases the target, a larger correction never tightens it |
| `WorkUnits.TargetUnits` | crates/mutiny-consensus/src/lib.rs:74-93 | without correction one unit of capacity gets 2^256 - 1, two get 2^255 |
| `VarUInt.VarUIntLawful` | crates/mutiny-codec/src/lib.rs:86-145 | reading undoes writing for every 64-bit value with any bytes after it, and every accepted prefix is the encoding of its value |
| `VarUInt.WriteVarUInt` | crates/mutiny-codec/src/lib.rs:86-98 | the writing loop appends the minimal encoding |
| `VarUInt.TenBytes` | crates/mutiny-codec/src/lib.rs:109-145 | an accepted value takes at most ten bytes and the tenth carries one bit |
| `VarUInt.ReadVarUInt` | crates/mutiny-codec/src/lib.rs:109-145 | the codec decoder is the reference decoder |
| `VarUInt.ReadPackM` | crates/mutiny-protocol/src/lib.rs:1709-1729 | the protocol decoder accepts the same inputs with the same value and length |
| `VarUInt.WitnessReader.Var` | crates/mutiny-node/src/mainnet_bootstrap.rs:859-891 | so does the bootstrap-witness decoder, from its position |
| `Codecs.PrefixFree` | crates/mutiny-codec/src/lib.rs:109-145 | under a lawful format no encoding is a prefix of another |

## Left out

- Argon2id, Ed25519, ChaCha20, HMAC and the inside of SHA-256: unknown functions or verdicts.
- TCP streams, frame reading and writing, handshakes, RPC and peer discovery: plumbing around the modelled routing.
- A poisoned mutex in the router: the source stops there without draining, and no modelled step causes it.
- Worker scheduling, mining presence, bootstrap transitions and the SPV payment check: mostly sequential checks or pinned constants.
- The transaction, fee and state-root parts of a block in `ChainReplay`: one unknown function of the consensus fields, the block and its height.
- Candidate gathering from disconnected blocks in `restore_reorg_mempool`: the theorems hold for every candidate list.
- The archive of side branches, and the mempool carried through a rewind: not consensus fields.
- The pending claims that `process_epoch` drops from local queues: local hygiene, not part of the ledger.
- Several claims in one block: a claim and its payment are one event; the source makes all payments of a block first, and payments and claims touch different fields.
- The watch-wallet format: the backup format without key files.
- Windows file publication, file permissions, random sources and clocks: a clock decision is a choice in an event.
- The pre-checks of `authorize` on the node state: the signer may be asked to sign more in the model than in the source.
- Reloads: assumes that a block accepted by validation encodes and decodes to itself; the block wire format is not modelled.
- BestChain.MainnetRefused: that the locked Mainnet anchor differs from the Devnet anchor and that no stored Mainnet row is the Devnet anchor block are stated as conditions.
- ChainReplay.RunsStayCanonical: assumes that a caller discards the state on which an advance failed; the source works on a copy or stops without saving.
- HeaderLedger.HeaderState.ApplyOperation: takes the batch already decoded from its operation payload.
- WorkUnits.CapacityFits: the multiplication is not modelled with wrap-around, because it shows that none occurs.
