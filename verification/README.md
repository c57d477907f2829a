# Sivan operations: a verified model

A Dafny model of the operational scripts of the Sivan payments backend, with proofs of what those scripts promise:
database migrations, the repair and audit of virtual accounts, one-time passwords, the inspection of phantom deposits,
the check of hand-written SQL, and the bulk load of a fresh database.

`dafny verify dfyconfig.toml` checks the whole project.

## How it is laid out

| file | what it models |
|---|---|
| `MigrationFiles`, `MigrationRuns` | the sorted directory, the ledger snapshot, one transaction per pending file; a `Session` class that issues the statements and a function that says what a run computes |
| `MigrationDeployments`, `MigrationDrift` | several runs after one another: interruption, resumption and growth; edited and reordered directories, and the warning |
| `MigrationReleases` | the same results for directory listings and the bodies in them: what a release may change |
| `MigrationSystem`, `MigrationPrefix` | any number of runners interleaved statement by statement, each with a stale snapshot, dying anywhere; runners of one growing directory |
| `MigrationRecovery` | the interleaved runners and the sequential run: recovery, and a runner left alone |
| `WalletStub`, `WalletHistories` | the wallet endpoints of the Bridge stub as a `Server` class, and its request histories |
| `VirtualAccounts`, `VirtualAccountRuns`, `VirtualAccountChecks` | the two repair scripts against the remote, alone, to their end; the read-back checks |
| `VirtualAccountFleet` | any number of repair scripts interleaved request by request, aborting anywhere |
| `VirtualAccountInterleavings`, `VirtualAccountFees` | a script alone among the interleavings, and two side by side; which scripts under way can still take a repaired fee back |
| `VirtualAccountAudit` | classification, refusal, deactivation, shared addresses |
| `Int32`, `Base32`, `Base32Streaming`, `Totp` | JavaScript's 32-bit operators, the two decoders and two encoders, truncation, generator and verifier |
| `PhantomDeposits`, `PhantomVerdicts` | the classifier over recorded deposits, with its keys; and what it reports, without them |
| `DepositPoller` | the poller whose histories the classifier is judged against |
| `Parentheses`, `SqlText`, `SqlInserts` | the balanced scan against a grammar, the commas that separate expressions, and the INSERT check built on the scan |
| `SqlPromise`, `SqlNesting` | what the comment above the check promises; statements with commas inside an expression |
| `BulkLoad` | load order, conflict-ignoring inserts, row counts |
| `Text`, `Sequences`, `Wrappers` | string operations, sequence facts and `Option` |

Code that changes state is a class or a method with a loop, proved against a function; the results are then proved about
that function. Step systems (`MigrationSystem`, `VirtualAccountFleet`) have one action per statement or request, and their
results hold for every sequence of actions.

## How the world is modelled

- The server executes SQL as a partial function from schema to schema; a migration body runs wholly inside its
  transaction. Digests are an unknown function that never returns the empty string; where a result needs digests to tell
  bodies apart it says so (`CollisionFree`).
- Isolation is the weakest there is: a transaction's body runs on the schema committed at that moment, and its commit
  writes the whole image back. Only the primary key of the ledger holds runners apart: an insert waits while another open
  transaction holds the same key, and fails once that key is committed.
- A session whose process dies is a `Stop` action: its open transaction vanishes.
- The remote's PUT replaces what it is sent and clears an omitted fee, as both repair scripts say it does. An absent
  optional field is the empty string, since the scripts only test truthiness.
- `Number(text)` is a parameter (`Reader`), HMAC-SHA1 is a parameter, and so is every answer of a remote that may refuse.
- Money is in whole micro-units.
- Characters are Unicode scalar values; a lone surrogate is not one. Sorting compares them by their UTF-16 code units, as
  JavaScript does; positions and lengths count characters where JavaScript counts code units. `toUpperCase` is modelled as
  far as it leads to the letters A to Z, which long s, dotless i, sharp s and the f and st ligatures do besides a to z;
  `toLowerCase` only meets comparisons with words it reaches from ASCII letters alone.
- In the deposit poller a `ZeroRead` is the provider's old fallback that reported a failed read as zero.

## Results that say where the code stops keeping a promise

- A release that edits or removes a file, or adds one that sorts before another, leaves a ledger and a schema a fresh
  database would not have, exactly then (`SameLedgerIffOnlyAddsLast`, `SameSchemaIffOnlyAddsLast`; three files of it in
  `FileInTheMiddleDiverges`).
- Run side by side, the reprovision script can put back the missing fee the other one has just repaired
  (`StaleListingUndoesTheFee`); a fee is out of danger exactly when no script under way holds a stale entry for it
  (`FeeStaysIffNoStaleEntry`). A run of the fix with a zero fee leaves its candidates candidates
  (`CandidateAgainIffNoFee`, `ZeroFeeRepairsNothing`).
- The stub answers any caller with the wallet a key names, whoever owns it: with the caller's own exactly under
  `AnsweredWithOwnWalletIff` (`SharedKeyLeaksAWallet`). It gives all wallets of one chain the same address, so the
  read-back check cannot tell its customers apart (`StubWalletsShareAddresses`, `OkWalletFooledIffShared`).
- The service's base32 decoder forgives white space inside a key but not behind the padding
  (`SpaceBehindPaddingIsRejected`; exactly what it accepts in `StrictAcceptsIff`).
- The header of the phantom script describes another criterion than the code applies. In clean histories the two agree
  (`DocumentedCriterionAgrees`); behind two outages the code flags a genuine deposit, which the header's criterion never
  does (`OutagesHideADeposit`), and money announced again can pass for new (`OutageCountsMoneyTwice`).
  `FlaggedIffBelowTotal` says when a row is flagged, in any history, `RepeatUnflaggedIff` when a repeat is not, and
  `ExactIffClean` for which histories the running total is right.
- The comment above the SQL check promises that columns, distinct placeholders and the highest placeholder coincide. The
  code compares columns with comma-separated expressions. A statement that passes keeps the promise exactly when all
  numbers up to the columns stand in it (`PromiseHoldsIffAllStand`), and breaks it with a literal
  (`LiteralBreaksThePromise`). Commas inside calls, brackets and quotes count as separators, so such a statement is
  flagged when it is balanced and passes when it is short of expressions (`CommaCountIsExactIffFlat`, `CallCountsAsTwo`,
  `QuoteCountsAsTwo`).
- The audit judges an account by the last local record for its provider id, so a duplicate can shadow an active one
  (`ActiveIsTargetedIffShadowed`, `DuplicateShadowsTheActive`).
- Migrations run before the load, and the rows they seed make equal row counts prove less: one can hide a lost row
  (`SeededRowHidesALoss`). Equal counts mean as many rows skipped as seeded. A table holds exactly the exported rows when
  the rows skipped are, copy by copy, the rows seeded, and loses none when no skipped row is missing
  (`MatchingCountsWithSeededRows`, `LoadIsExactIff`); for tables that were empty, equal counts suffice
  (`MatchingCountsMeanComplete`).

## Model

| member | source | states |
|---|---|---|
| `MigrationFiles.FilesAreSorted` | scripts/db-migrate.ts:52 | a run works through every name of the directory that ends in `.sql`, once, in strictly ascending order |
| `MigrationDrift.EmptyChecksumStopsTheRun` | scripts/db-migrate.ts:87-98 | a file recorded with an empty checksum counts as not applied, and its row then stops the run |
| `Text.LessComparesCodeUnits` | scripts/db-migrate.ts:52 | the sort compares names by UTF-16 code units, a proper prefix first, on every string of characters |
| `MigrationFiles.ListingOrderIsIrrelevant` | scripts/db-migrate.ts:52 | the order in which the directory is listed does not change the files of a run |
| `MigrationFiles.PrefixIffAddedLast` | scripts/db-migrate.ts:52 | one sorted list is a prefix of a larger one exactly when every added name sorts after every old one |
| `MigrationRuns.Session.Begin` | scripts/db-migrate.ts:105 | opens a transaction on the committed image |
| `MigrationRuns.Session.Query` | scripts/db-migrate.ts:106 | a body changes the open image only, or raises an error and changes nothing |
| `MigrationRuns.Session.InsertRow` | scripts/db-migrate.ts:107-110 | the ledger row is added unless its key is taken |
| `MigrationRuns.Session.Commit` | scripts/db-migrate.ts:111 | the open image becomes the committed one |
| `MigrationRuns.Session.Rollback` | scripts/db-migrate.ts:114 | the open image is dropped |
| `MigrationRuns.Session.ApplyFile` | scripts/db-migrate.ts:102-117 | body and ledger row commit together or neither does |
| `MigrationRuns.Session.Migrate` | scripts/db-migrate.ts:71-118 | the script ends in the database, with the count, the warnings and the failure of the run specified by `Run` |
| `MigrationRuns.SnapshotKeys` | scripts/db-migrate.ts:71-74 | the snapshot names exactly the recorded files |
| `MigrationRuns.RunAppends` | scripts/db-migrate.ts:84-118 | a run appends exactly one row per body executed, in order, and its schema is the fold of those bodies |
| `MigrationRuns.RunExecutesLongestPrefix` | scripts/db-migrate.ts:84-118 | it executes the longest prefix of the pending files that succeeds and names the file it stopped at |
| `MigrationDeployments.RunOfConcat` | scripts/db-migrate.ts:84-118 | a run over two lists is the first, then, if it did not fail, the second |
| `MigrationDeployments.FailurePoint` | scripts/db-migrate.ts:113-117 | a failed run is the complete run of the files before the one it names, whose transaction fails |
| `MigrationDeployments.ResumeAfterFailure` | scripts/db-migrate.ts:113-117 | running again after a failure fails at the same file and changes nothing |
| `MigrationDeployments.CutAndResume` | scripts/db-migrate.ts:33-34 | a run cut short after any number of files and resumed ends as one uninterrupted run; no body runs twice |
| `MigrationDeployments.SecondRunExecutesNothing` | scripts/db-migrate.ts:88-98 | a second run of a directory executes nothing, however the first one ended |
| `MigrationDeployments.DeploymentsConverge` | scripts/db-migrate.ts:84-118 | any deployments of prefixes, complete or failed, then the whole list: the same database as one run of it |
| `MigrationDeployments.ScratchRunIsTheFold` | scripts/db-migrate.ts:84-112 | from an empty ledger the schema is the fold of the files executed, a prefix of the list |
| `MigrationDeployments.IncrementalEqualsScratch` | scripts/db-migrate.ts:52-112 | growing releases applied one after another leave the schema of the whole list applied once to an empty database |
| `MigrationDrift.IncrementalIffPrefix` | scripts/db-migrate.ts:52-112 | when the runs go through, the incremental ledger is the scratch ledger exactly when the old rows are a prefix of the new |
| `MigrationDrift.IncrementalSchemaIffPrefix` | scripts/db-migrate.ts:52-112 | for all sorted directories with distinct bodies, on a server that keeps a journal of them: the incremental schema is the scratch schema exactly when the old directory is a prefix of the new |
| `MigrationDrift.FileInTheMiddleDiverges` | scripts/db-migrate.ts:52-112 | an instance: a file that sorts between two applied ones runs last and leaves a schema a fresh database would not have |
| `MigrationDrift.WarnsExactlyAboutEdits` | scripts/db-migrate.ts:88-97 | a finished run warns about a file exactly when it is recorded under another checksum |
| `MigrationDrift.WarnsIffEdited` | scripts/db-migrate.ts:39-42 | on a ledger of any files in any order, a finished run warns about nothing exactly when no recorded body was edited |
| `MigrationDrift.NoWarningMeansDirectorySchema` | scripts/db-migrate.ts:39-42 | a finished run without a warning leaves the fold of the directory as it now stands |
| `MigrationReleases.FilesAre` | scripts/db-migrate.ts:52-85 | the files of a run are the `.sql` names of the listing with the bodies read, in ascending order |
| `MigrationReleases.PrefixIffOnlyAddsLast` | scripts/db-migrate.ts:52-85 | one release's files are a prefix of another's exactly when the other edits and removes none and adds only names sorting after all of them |
| `MigrationReleases.GrowingReleasesEqualScratch` | scripts/db-migrate.ts:52-112 | if every release only adds files sorting last and edits none, then after any deployments of which the last goes through the schema is the last directory applied once to an empty database, and an extra run executes nothing |
| `MigrationReleases.SameLedgerIffOnlyAddsLast` | scripts/db-migrate.ts:52-112 | between any two releases the incremental ledger is the scratch ledger exactly in that case |
| `MigrationReleases.SameSchemaIffOnlyAddsLast` | scripts/db-migrate.ts:52-112 | and so is the schema of a server that keeps a journal of distinct bodies |
| `MigrationReleases.ReleasesKeepLedgerClosed` | scripts/db-migrate.ts:52-118 | runners of such releases, interleaved and dying anywhere, keep a downward closed ledger downward closed and commit the next files in order |
| `MigrationSystem.OnceInvStep` | scripts/db-migrate.ts:63-117 | every step of every runner keeps: one row per commit, no name twice, no held row already recorded |
| `MigrationSystem.CommittedAtMostOnce` | scripts/db-migrate.ts:63-117 | over every interleaving and crash no body commits twice and none commits that was recorded before |
| `MigrationPrefix.PrefixInvStep` | scripts/db-migrate.ts:71-118 | every step keeps the ledger at exactly the first files of the directory, stale snapshots included, whatever else the database held at the start |
| `MigrationPrefix.AlwaysAPrefix` | scripts/db-migrate.ts:52-118 | from any database whose ledger names exactly the first k0 files, edited or out of order or among others: in every reachable state it names exactly the first n, the commits were those between, in order, and the schema is their fold over the schema found |
| `MigrationPrefix.CommitReplacesWhatItRead` | scripts/db-migrate.ts:102-111 | no lost update: every commit replaces the very schema its body ran on |
| `MigrationPrefix.FinishedMeansApplied` | scripts/db-migrate.ts:84-124 | a runner that finishes leaves all its files recorded, whoever recorded them |
| `MigrationPrefix.LedgerIsDownwardClosed` | scripts/db-migrate.ts:52-118 | for a sorted directory and any downward closed ledger, every reachable ledger is downward closed: a recorded file has every file sorting before it recorded |
| `MigrationRecovery.PrefixIsARun` | scripts/db-migrate.ts:71-118 | every such state is what one sequential run on the database found would have left |
| `MigrationRecovery.RecoversFromAnyState` | scripts/db-migrate.ts:71-118 | from every reachable state one further run ends where a single run on the database found would have |
| `MigrationRecovery.OneFile` | scripts/db-migrate.ts:102-112 | begin, body, row and commit of one pending file, as steps, are the transaction of the sequential runner |
| `MigrationRecovery.SequentialRunIsAnInterleaving` | scripts/db-migrate.ts:71-118 | the script run alone is one of the interleavings |
| `WalletStub.Server.constructor` | scripts/test-bridge-wallet-e2e.ts:42-49 | the stub starts with no wallets, no keys and no requests |
| `WalletStub.Server.Serve` | scripts/test-bridge-wallet-e2e.ts:62-143 | every request is recorded and answered, and the maps updated, as specified by `Handle` |
| `WalletStub.NextIdIsFresh` | scripts/test-bridge-wallet-e2e.ts:102 | the id about to be allocated names no wallet |
| `WalletStub.ReplayedPost` | scripts/test-bridge-wallet-e2e.ts:87-97 | a replayed key answers with the wallet it names and changes nothing |
| `WalletStub.FirstPost` | scripts/test-bridge-wallet-e2e.ts:99-113 | any other post creates exactly one wallet under a fresh id and binds its key |
| `WalletHistories.RequestKeepsValid` | scripts/test-bridge-wallet-e2e.ts:79-143 | no request breaks the store, removes a wallet, rebinds a key or crashes |
| `WalletHistories.HistoryOnlyGrows` | scripts/test-bridge-wallet-e2e.ts:79-143 | so no history does |
| `WalletHistories.BoundAfterPost` | scripts/test-bridge-wallet-e2e.ts:85-113 | an answered post leaves its key bound to the wallet answered |
| `WalletHistories.SameKeySameWallet` | scripts/test-bridge-wallet-e2e.ts:85-97 | two posts with one key, whatever comes between: the same wallet, and nothing created |
| `WalletHistories.NoKeyNoReplay` | scripts/test-bridge-wallet-e2e.ts:87-105 | without a key a repeated post creates another wallet |
| `WalletHistories.ReadableEverAfter` | scripts/test-bridge-wallet-e2e.ts:131-142 | a wallet once answered can be read under its id after any history, unchanged, by any customer |
| `WalletStub.AddressForms` | scripts/test-bridge-wallet-e2e.ts:51-106 | which chains have an address of their own, and in what form |
| `WalletHistories.ListingAnswers` | scripts/test-bridge-wallet-e2e.ts:116-129 | the answer to a listing: nothing changes, and each wallet of that customer is shown once, in order of creation, and no other |
| `WalletHistories.OtherAnswers` | scripts/test-bridge-wallet-e2e.ts:99-142 | an id is answered with its wallet and balances, an unknown one with not found, and a first post without a chain with an error |
| `WalletHistories.ListingsPartition` | scripts/test-bridge-wallet-e2e.ts:116-129 | after any history the answers to the owners' listings show every wallet exactly once, each to its own customer |
| `WalletStub.KeyForIsInjective` | scripts/reprovision-va-to-solana.ts:140 | the deterministic key determines the customer and the chain |
| `WalletHistories.AnsweredWithOwnWallet` | scripts/reprovision-va-to-solana.ts:136-142 | when all posts carry deterministic keys, a post answers with a wallet of its own customer and chain |
| `WalletHistories.AnsweredWithOwnWalletIff` | scripts/test-bridge-wallet-e2e.ts:85-113 | for every store a post naming a chain is answered with a wallet of the caller exactly when its key is no replay or was first used for the same customer |
| `WalletHistories.SharedKeyLeaksAWallet` | scripts/test-bridge-wallet-e2e.ts:87-97 | an instance: a key first used for one customer answers another with the first one's wallet |
| `VirtualAccounts.Bridge.CreateWallet` | scripts/reprovision-va-to-solana.ts:136-142 | a post under the key it is given; the wallet answered, or nothing when the post is refused |
| `VirtualAccounts.Bridge.Put` | scripts/fix-live-virtual-account.ts:154-176 | the replacing PUT, which changes one account or nothing |
| `VirtualAccounts.Bridge.RepairAccount` | scripts/reprovision-va-to-solana.ts:113-168 | wallet first, then the PUT; the remote, the checks and the abort are those of `RepairOne` |
| `VirtualAccounts.Bridge.Repair` | scripts/fix-live-virtual-account.ts:89-196 | the whole script over one listing, up to the first abort |
| `VirtualAccounts.WordsInAnyCase` | scripts/fix-live-virtual-account.ts:93-104 | live means activated or active, and on the target chain means solana, in any letter case |
| `VirtualAccounts.WantsIff` | scripts/fix-live-virtual-account.ts:93-105 | which accounts either script takes up |
| `VirtualAccounts.CandidatesKeepOrder` | scripts/fix-live-virtual-account.ts:93-105 | candidates come in the order of the listing |
| `VirtualAccounts.PutIff` | scripts/fix-live-virtual-account.ts:154-176 | when the PUT is refused, and what it replaces and keeps |
| `VirtualAccounts.ReportTells` | scripts/fix-live-virtual-account.ts:178-190 | what fee, rail and bank checks tell of the account, whoever else has written it |
| `VirtualAccountFleet.FindSolanaIsFirst` | scripts/reprovision-va-to-solana.ts:124-129 | the wallet used is the first of the listing on the target chain |
| `VirtualAccountFleet.InvCreate` | scripts/reprovision-va-to-solana.ts:136-144 | creating a wallet keeps every account and script sound and the customer's count at one |
| `VirtualAccountFleet.InvUpdate` | scripts/reprovision-va-to-solana.ts:165-168 | a PUT, however stale, keeps every written account on a wallet of its own customer |
| `VirtualAccountFleet.WrittenAccountsPointAtOwnWallets` | scripts/reprovision-va-to-solana.ts:113-168 | in every intermediate state every written account settles on solana into an existing wallet of its own customer; identity, owner, status and bank never change |
| `VirtualAccountFleet.NoSecondSolanaWallet` | scripts/reprovision-va-to-solana.ts:124-144 | over any interrupted, repeated and concurrent runs no customer gains a second solana wallet |
| `VirtualAccountFleet.HealthyAccountsAreNeverWritten` | scripts/reprovision-va-to-solana.ts:91-95 | an account neither script wants is never changed |
| `VirtualAccountFleet.DryRunsChangeNothing` | scripts/reprovision-va-to-solana.ts:133-163 | without --apply the remote stays as it was |
| `VirtualAccountRuns.DryRunLeavesRemote` | scripts/reprovision-va-to-solana.ts:133-163 | without the apply flag either script, on any remote and any listing, writes, reports and aborts nothing |
| `VirtualAccountRuns.FixWritesTheFee` | scripts/fix-live-virtual-account.ts:41-176 | a completed fix writes the fee given, or 1.25, and otherwise only redirects the money |
| `VirtualAccountRuns.ReportsFollowTodo` | scripts/fix-live-virtual-account.ts:178-196 | it reports on each candidate with a customer, once and in order; the reprovision script on none |
| `VirtualAccountRuns.RepairOneWorks` | scripts/reprovision-va-to-solana.ts:113-168 | one account ends in its own customer's wallet and nothing else changes |
| `VirtualAccountRuns.CompletedRunConverges` | scripts/reprovision-va-to-solana.ts:91-188 | a completed run settles every candidate with a customer as promised and leaves all others untouched |
| `VirtualAccountRuns.ReprovisionCarriesFeeOver` | scripts/reprovision-va-to-solana.ts:146-156 | fee, bank and identity are kept, the currency too unless it was missing |
| `VirtualAccountRuns.ReprovisionMovesEveryone` | scripts/reprovision-va-to-solana.ts:91-188 | after a completed run every account it was asked to move is on solana, and no other has changed |
| `VirtualAccountRuns.FixLeavesNoFeeMissing` | scripts/fix-live-virtual-account.ts:93-176 | after a completed run with a positive fee no live account with a customer lacks one, and no other has changed |
| `VirtualAccountChecks.ChecksAfterPut` | scripts/fix-live-virtual-account.ts:178-190 | right after a PUT rail and bank pass, the fee if it reads as a number, the wallet exactly if its id comes back or it has an address |
| `VirtualAccountRuns.CandidateAgainIffNoFee` | scripts/fix-live-virtual-account.ts:97-105 | an account taken up is a candidate again exactly when the run wrote no positive fee |
| `VirtualAccountRuns.ZeroFeeRepairsNothing` | scripts/fix-live-virtual-account.ts:89-196 | an instance: `--fee=0` is written into the account, which is listed again |
| `VirtualAccountRuns.SecondRunFindsNothing` | scripts/reprovision-va-to-solana.ts:91-118 | otherwise a second run finds only accounts without a customer |
| `VirtualAccountInterleavings.SoloRunIsAnInterleaving` | scripts/reprovision-va-to-solana.ts:72-191 | a script run alone, with the apply flag or without, is one of the interleavings |
| `VirtualAccountFees.FeeStaysIffNoStaleEntry` | scripts/reprovision-va-to-solana.ts:80-168 | in every reachable state a fee that is there survives everything that can still happen exactly when no acting script holds an entry for the account that would be written without one |
| `VirtualAccountFees.NoStaleEntryRun` | scripts/fix-live-virtual-account.ts:89-176 | without such an entry the fee stays through every run, whatever is started later |
| `VirtualAccountFees.EntryIsWritten` | scripts/reprovision-va-to-solana.ts:113-168 | an acting script can get to any of its entries and write the fee it listed, or was told, for it |
| `VirtualAccountInterleavings.StaleListingUndoesTheFee` | scripts/reprovision-va-to-solana.ts:80-156 | an instance: a listing older than the fix makes the reprovision script undo the fee |
| `VirtualAccountChecks.OkWalletIsExact` | scripts/fix-live-virtual-account.ts:179-186 | with one address per wallet, and whichever field is echoed, okWallet is true exactly when deposits land in the intended wallet |
| `VirtualAccountChecks.OkWalletFooledIffShared` | scripts/fix-live-virtual-account.ts:184-186 | another wallet passes exactly when it shares the address |
| `VirtualAccountChecks.OkWalletRejectsOwnIffNoAddress` | scripts/fix-live-virtual-account.ts:184-186 | the intended wallet fails exactly when it has no address |
| `VirtualAccountChecks.StubWalletsShareAddresses` | scripts/test-bridge-wallet-e2e.ts:51-55 | against the stub the test cannot tell customers apart |
| `Int32.BitAndMask` | src/auth/two-factor.service.ts:67-68 | masking with k ones is the remainder modulo 2^k |
| `Int32.BitOrLow` | src/auth/two-factor.service.ts:68 | or-ing into free low bits is addition |
| `Int32.ShiftInByte` | src/wallets/stellar/stellar-keypair.ts:27 | shifting a byte in keeps the low 24 bits of the accumulator, overflow included |
| `Base32.LettersAreTheAlphabet` | scripts/test-account-recovery.ts:8 | letter and index agree with the alphabet |
| `Base32.ReadChars` | scripts/test-account-recovery.ts:10-11 | the loop collects five bits per character |
| `Base32.WholeBytes` | scripts/test-account-recovery.ts:12-13 | the loop cuts whole bytes and drops the rest |
| `Base32.Decode` | scripts/test-account-recovery.ts:9-15 | the decoder, on every text that is over the alphabet once stripped and upper-cased |
| `Base32.ReadBytes` | src/auth/two-factor.service.ts:39-40 | the loop collects eight bits per byte |
| `Base32.Encode` | src/auth/two-factor.service.ts:38-47 | the encoder computes the encoding of section 6 of RFC 4648, unpadded |
| `Base32.CharsHoldTheBits` | src/auth/two-factor.service.ts:42-45 | the characters hold the bits of the bytes and at most four zeros more |
| `Base32.DecodeOfEncoded` | scripts/test-account-recovery.ts:9-15 | decoding an encoding gives the bytes back, in any letter case and with any padding |
| `Base32.DecodeIsAShiftedNumber` | scripts/test-account-recovery.ts:9-15 | any n characters decode to 5n/8 bytes: the big-endian base-32 number without its last 5n mod 8 bits |
| `Base32.DecodeInAnyCase` | scripts/test-account-recovery.ts:9-15 | the round trip with each capital typed as it is or as its small letter, for both decoders |
| `Base32.StrictDecode` | src/auth/two-factor.service.ts:49-60 | the service's decoder: bytes, or the error for any other character |
| `Base32.DecodersAgree` | src/auth/two-factor.service.ts:49-60 | where the script's decoder is meaningful, the service's gives the same bytes |
| `Base32.StrictOfEncoded` | src/auth/two-factor.service.ts:50 | the round trip with white space anywhere inside the key |
| `Base32.StrictAcceptsIff` | src/auth/two-factor.service.ts:49-60 | a text is decoded exactly when, without the padding at its end, it holds only white space and characters that are in the alphabet once upper-cased |
| `Base32.PaddingMustComeLast` | src/auth/two-factor.service.ts:50-54 | a `=` with anything but `=` behind it is an error |
| `Base32.SpaceBehindPaddingIsRejected` | src/auth/two-factor.service.ts:50-54 | white space behind the padding, however much of either, is an error |
| `Base32Streaming.Encode` | src/wallets/stellar/stellar-keypair.ts:22-38 | the one-pass encoder, 32-bit overflow and all, computes the same encoding |
| `Base32Streaming.PendingBits` | src/wallets/stellar/stellar-keypair.ts:27 | the bits not yet written survive the overflow of the accumulator |
| `Base32Streaming.EmitsGroup` | src/wallets/stellar/stellar-keypair.ts:29-32 | each letter written is the next five bits |
| `Base32Streaming.EmitsLast` | src/wallets/stellar/stellar-keypair.ts:34-36 | the last letter is the rest, filled up with zeros |
| `Totp.JoinIsWord` | src/auth/two-factor.service.ts:68 | shifts and ors of four bytes are the signed big-endian 32-bit number |
| `Totp.TruncationIsTheWindow` | scripts/test-account-recovery.ts:20-21 | for every 20-byte MAC the code is the four big-endian bytes from place `mac[19] % 16` on, modulo 2^31 |
| `Totp.MaskKeepsTheSign` | scripts/test-account-recovery.ts:21 | without the 0x7f mask it is negative exactly when the leading byte, the one at `mac[19] % 16`, has its top bit |
| `Totp.PrintedCode` | scripts/test-account-recovery.ts:22 | what is shown is exactly six digits, and they are that number, at `mac[19] % 16`, modulo 10^6 |
| `Totp.CounterBytesAreBigEndian` | scripts/test-account-recovery.ts:17-18 | the message is the counter in eight big-endian bytes, and an error exactly when it does not fit |
| `Totp.CounterSpansThirtySeconds` | scripts/test-account-recovery.ts:18 | a counter stands for exactly the thirty seconds that begin at its multiple |
| `Totp.Generate` | scripts/test-account-recovery.ts:16-23 | the code of the decoded key and the current counter |
| `Totp.CodeIs` | src/auth/two-factor.service.ts:62-70 | a code is six digits: the truncated MAC under the key of the eight counter bytes, modulo 10^6 |
| `Totp.SeparatorsAreIgnored` | src/auth/two-factor.service.ts:73 | white space and hyphens in an entry are ignored wherever they stand |
| `Totp.VerifyWith` | src/auth/two-factor.service.ts:75 | the counters are tried in turn up to the first code that throws or matches |
| `Totp.Verify` | src/auth/two-factor.service.ts:72-76 | the three counters in turn, spaces and hyphens in the entry ignored |
| `Totp.AcceptsExactlyTheWindow` | src/auth/two-factor.service.ts:72-76 | accepted exactly when the entry is one of the three codes |
| `Totp.NoVerdictInTheFirstStep` | src/auth/two-factor.service.ts:75 | in the first thirty seconds of the epoch the verifier throws |
| `Totp.NoVerdictIffFirstStep` | src/auth/two-factor.service.ts:72-76 | and at no other time, for a valid key and counters of eight bytes |
| `Totp.NoVerdictIff` | src/auth/two-factor.service.ts:49-76 | for any stored key: the verifier throws exactly when the key cannot be decoded or in that first step |
| `Totp.GeneratedCodeIsAccepted` | src/auth/two-factor.service.ts:38-76 | for every key, however typed on either side, a generated code is accepted when the clocks are at most thirty seconds apart |
| `PhantomDeposits.FillGroups` | scripts/identify-phantom-deposits.ts:49-54 | the map holds each key's rows, its keys in order of first appearance |
| `PhantomDeposits.ScanGroup` | scripts/identify-phantom-deposits.ts:60-77 | the ids of the rows the running total calls phantom |
| `PhantomDeposits.Identify` | scripts/identify-phantom-deposits.ts:49-78 | the ids of all groups, in order |
| `PhantomDeposits.RowsSplit` | scripts/identify-phantom-deposits.ts:72-76 | every row is called real or phantom, as often as it stands in the list |
| `PhantomDeposits.KnownIsReal` | scripts/identify-phantom-deposits.ts:60-73 | the running total is what the rows called real add up to |
| `PhantomDeposits.AmountsAreConserved` | scripts/identify-phantom-deposits.ts:72-76 | real and phantom amounts make up the total of all rows |
| `PhantomDeposits.GroupsPartition` | scripts/identify-phantom-deposits.ts:49-54 | every row lands in exactly one group: the groups hold it as often as the list does |
| `PhantomDeposits.GroupsKeepOrder` | scripts/identify-phantom-deposits.ts:50-53 | a group is all rows of its key in their order |
| `PhantomVerdicts.KeyIsThePair` | scripts/identify-phantom-deposits.ts:51 | without colons in the names two rows share a key exactly when they share chain and asset |
| `PhantomVerdicts.GroupIsThePair` | scripts/identify-phantom-deposits.ts:49-54 | so a group is the rows of one chain and asset |
| `PhantomVerdicts.PairsKeepOrder` | scripts/identify-phantom-deposits.ts:50-53 | all of them, in their order |
| `PhantomVerdicts.OtherPairsDoNotMatter` | scripts/identify-phantom-deposits.ts:49-78 | a row of another pair, wherever it stands, changes nothing for this one |
| `PhantomVerdicts.VerdictIsUnique` | scripts/identify-phantom-deposits.ts:60-77 | there is one marking in which a row is marked exactly when its previous balance is none or zero and its balance is not above a positive sum of the unmarked earlier rows of its pair |
| `PhantomVerdicts.ReportedAreTheMarked` | scripts/identify-phantom-deposits.ts:49-78 | the ids reported are those of the rows so marked, pair by pair in order of appearance and in the order of the rows |
| `PhantomDeposits.KeyIsSharedIffColon` | scripts/identify-phantom-deposits.ts:51 | two pairs share a key exactly when a colon stands in one of the names |
| `DepositPoller.OneCentIsAnnounced` | src/deposits/deposit-detection.service.ts:187-256 | a first deposit is announced from one cent on |
| `DepositPoller.GoodReading` | src/deposits/deposit-detection.service.ts:187-256 | after one good reading the running total is the balance exactly when the reading is clean |
| `DepositPoller.CleanStaysLinked` | src/deposits/deposit-detection.service.ts:120-266 | in a clean history the running total is the money last seen |
| `DepositPoller.ExactIffClean` | scripts/identify-phantom-deposits.ts:60-77 | the running total is right at every good reading exactly in clean histories |
| `DepositPoller.FlaggedAreTheRepeats` | scripts/identify-phantom-deposits.ts:68-76 | in clean histories exactly the rows that announce no new money are flagged |
| `DepositPoller.DocumentedCriterionAgrees` | scripts/identify-phantom-deposits.ts:7-11 | in clean histories the header's criterion flags the same rows |
| `DepositPoller.AfterOutage` | src/deposits/deposit-detection.service.ts:189-256 | behind an outage the whole balance is announced again |
| `DepositPoller.FlaggedIffBelowTotal` | scripts/identify-phantom-deposits.ts:68 | in every history a row is flagged exactly when it is a good reading behind a zero reading with a balance not above a positive running total; the header's criterion never flags new money |
| `DepositPoller.RepeatUnflaggedIff` | scripts/identify-phantom-deposits.ts:68-76 | in every history a row that announces old money alone goes unflagged exactly when it stands behind no zero reading or the running total has fallen behind the money seen |
| `DepositPoller.OutageCountsMoneyTwice` | scripts/identify-phantom-deposits.ts:68 | an instance: a deposit below the minimum behind an earlier one, and an outage: all that old money is called real, and the total counts it twice but for the small deposit |
| `DepositPoller.OutagesHideADeposit` | scripts/identify-phantom-deposits.ts:68 | an instance: two outages that hide deposits make the code flag a genuine one |
| `Parentheses.BalancedIffCounted` | scripts/test-auth-signup-signin.ts:84-91 | derivable in the grammar exactly when the depth never goes negative and ends at zero |
| `Parentheses.MatchIsUnique` | scripts/test-auth-signup-signin.ts:81-93 | a parenthesis has at most one match |
| `Parentheses.ClauseIsUnique` | scripts/test-auth-signup-signin.ts:81-93 | so a source position has at most one clause |
| `Parentheses.ClauseStands` | scripts/test-auth-signup-signin.ts:81-93 | behind text without a parenthesis balanced text in parentheses is the clause, whatever follows |
| `Parentheses.ValuesClause` | scripts/test-auth-signup-signin.ts:81-93 | returns the balanced text between the first parenthesis and its match, and nothing exactly when there is no match |
| `SqlInserts.Collect` | scripts/test-auth-signup-signin.ts:95-101 | the statements whose values clause stands near and is not empty |
| `SqlInserts.CollectedAreHeld` | scripts/test-auth-signup-signin.ts:95-101 | each statement collected stands in the source: the first `values` at most 40 characters behind its columns, and the text between the parenthesis behind it and its match; in the order of the hits |
| `SqlInserts.HeldAreCollected` | scripts/test-auth-signup-signin.ts:95-101 | and every such statement with text between its parentheses is collected |
| `SqlInserts.ColumnsAre` | scripts/test-auth-signup-signin.ts:108 | the columns are the pieces between commas that are not blank, trimmed, in order |
| `Text.TrimIsTheMiddle` | scripts/test-auth-signup-signin.ts:108 | trimming leaves what stands between the white space at the two ends |
| `SqlInserts.PlaceholdersAreThePositions` | scripts/test-auth-signup-signin.ts:110 | the numbers matched are exactly those of the placeholders standing in the text |
| `SqlInserts.Check` | scripts/test-auth-signup-signin.ts:105-142 | the complaints, one per statement at most, in order |
| `SqlInserts.ComplaintOfCounts` | scripts/test-auth-signup-signin.ts:134-136 | what is said when the counts differ, with both counts |
| `SqlInserts.ComplaintOfHighest` | scripts/test-auth-signup-signin.ts:139-141 | and otherwise, with the highest placeholder that stands beyond the columns |
| `SqlInserts.ComplaintsKeepOrder` | scripts/test-auth-signup-signin.ts:104-142 | complaints come in the order of the statements |
| `SqlInserts.EmptyIffAllPass` | scripts/test-auth-signup-signin.ts:105-145 | no complaint exactly when every statement with placeholders has one comma less than columns and binds none beyond them |
| `SqlText.ScanFollowsGrammar` | scripts/test-auth-signup-signin.ts:112-126 | the expressions of SQL text by its grammar, counted by one scan for commas outside parentheses, brackets and quotes |
| `SqlText.SplitCountsExpressions` | scripts/test-auth-signup-signin.ts:128 | for every text splitting at commas counts each expression and each comma inside one, so it is exact exactly when no comma stands inside |
| `SqlInserts.CommaCountIsExactIffFlat` | scripts/test-auth-signup-signin.ts:128-141 | for every statement: the comma count is the expression count exactly when no comma stands inside parentheses, brackets or quotes; one with placeholders passes exactly when the columns are the expressions and the commas inside them and no placeholder is beyond them |
| `SqlNesting.CallCountsAsTwo` | scripts/test-auth-signup-signin.ts:128-136 | instances: `coalesce($1,$2)` and `array[$1,$2]` are one expression, flagged for one column and passed for two |
| `SqlNesting.QuoteCountsAsTwo` | scripts/test-auth-signup-signin.ts:128-136 | so is a quoted text with a comma in it |
| `SqlInserts.NoComplaintsMeansBalanced` | scripts/test-auth-signup-signin.ts:81-145 | scanner and checker together: balanced clauses, as many columns as expressions and commas inside them, no placeholder beyond the columns |
| `SqlInserts.NoComplaintsIffAllInOrder` | scripts/test-auth-signup-signin.ts:95-145 | scanner and checker together: no complaint if and only if every statement the source holds has its columns balanced and its placeholders within them |
| `SqlPromise.PromiseHoldsIff` | scripts/test-auth-signup-signin.ts:61-69 | for a statement that passes, columns, distinct placeholders and the highest placeholder coincide exactly when all numbers from 0 to the columns but one below them stand in the values |
| `SqlPromise.PromiseHoldsIffAllStand` | scripts/test-auth-signup-signin.ts:61-69 | where no $0 stands: exactly when every number from 1 to the columns does |
| `SqlPromise.PlaceholdersOfPieces` | scripts/test-auth-signup-signin.ts:110-128 | the placeholders of the values are those of their comma-separated expressions |
| `SqlPromise.PromiseHoldsIffEachBindsItsOwn` | scripts/test-auth-signup-signin.ts:112-126 | where expressions bind at most one placeholder each, exactly when every expression binds its own, and the highest is the column count |
| `SqlPromise.LiteralBreaksThePromise` | scripts/test-auth-signup-signin.ts:112-138 | an instance: `now()` fills a column, nothing is complained about and the numbers do not coincide |
| `SqlPromise.OneMayBindForAnother` | scripts/test-auth-signup-signin.ts:112-138 | an instance: they can coincide although one expression binds nothing, when another binds two |
| `VirtualAccountAudit.Provider.Deactivate` | scripts/audit-virtual-accounts.ts:208-211 | a request is recorded and, if accepted, deactivates the accounts of that id only |
| `VirtualAccountAudit.DeactivateStale` | scripts/audit-virtual-accounts.ts:184-218 | requests, counters and the provider's accounts after the loop |
| `VirtualAccountAudit.TallyAddsUp` | scripts/audit-virtual-accounts.ts:184-218 | the counters are the accepted targets, and the other targets with the rows that cannot be addressed |
| `VirtualAccountAudit.Audit` | scripts/audit-virtual-accounts.ts:69-221 | refusal, read-only mode and deactivation |
| `VirtualAccountAudit.TargetedIff` | scripts/audit-virtual-accounts.ts:69-206 | exactly which accounts a run targets, in terms of the two lists and the flags alone |
| `VirtualAccountAudit.TargetsKeepOrder` | scripts/audit-virtual-accounts.ts:184-206 | and in which order |
| `VirtualAccountAudit.OnlyStaleAccountsAreTargeted` | scripts/audit-virtual-accounts.ts:69-218 | with unique provider ids: live at the provider, active nowhere locally, known unless forced, never on an empty production database |
| `VirtualAccountAudit.ActiveIsTargetedIffShadowed` | scripts/audit-virtual-accounts.ts:81-91 | without uniqueness an active account is targeted exactly when its last record is not active |
| `VirtualAccountAudit.DuplicateShadowsTheActive` | scripts/audit-virtual-accounts.ts:81-91 | an instance: a second record for the same provider id gets an active account targeted |
| `VirtualAccountAudit.OtherAccountsAreUntouched` | scripts/audit-virtual-accounts.ts:207-217 | an account changes exactly when it was targeted and accepted |
| `VirtualAccountAudit.ActiveAccountsSurvive` | scripts/audit-virtual-accounts.ts:187-218 | no run changes an account the local list calls active |
| `VirtualAccountAudit.IndexOwners` | scripts/audit-virtual-accounts.ts:154-160 | the index holds, per address, the customers of its rows |
| `VirtualAccountAudit.PooledIffTwoCustomers` | scripts/audit-virtual-accounts.ts:162 | pooled exactly when two rows share the address and name different customers |
| `VirtualAccountAudit.PooledIffTwoOwners` | scripts/audit-virtual-accounts.ts:83-162 | so exactly when two accounts of different customers settle to the address |
| `VirtualAccountAudit.PoolingIgnoresOrder` | scripts/audit-virtual-accounts.ts:154-162 | whatever the order of the rows |
| `BulkLoad.OrderListsEveryTableOnce` | scripts/migrate-neon-clean.ts:167-171 | every exported table but the ledger exactly once |
| `BulkLoad.ListedTablesComeFirst` | scripts/migrate-neon-clean.ts:168-171 | the listed tables first, as listed, and then the others in the order of the export |
| `BulkLoad.Destination.Insert` | scripts/migrate-neon-clean.ts:204-207 | a row that clashes is ignored, one that is refused is an error, any other is appended |
| `BulkLoad.Destination.LoadTable` | scripts/migrate-neon-clean.ts:188-208 | the rows of one table, up to the first error |
| `BulkLoad.Destination.Load` | scripts/migrate-neon-clean.ts:173-209 | the tables in order, those missing or without rows passed over |
| `BulkLoad.Destination.Verify` | scripts/migrate-neon-clean.ts:212-227 | whether all counts match, a table that cannot be counted counting as -1 |
| `BulkLoad.OneRow` | scripts/migrate-neon-clean.ts:188-208 | what becomes of one row |
| `BulkLoad.ErrorIsARefusal` | scripts/migrate-neon-clean.ts:188-208 | an error names a row that is refused, and leaves the table as the rows before it left it |
| `BulkLoad.LoadStopsInOneTable` | scripts/migrate-neon-clean.ts:173-209 | the tables before the error are loaded, its own in part, and no other is touched |
| `BulkLoad.CountsMatchIff` | scripts/migrate-neon-clean.ts:212-227 | the counts match exactly when every exported table but the ledger has as many rows as exported |
| `BulkLoad.StoredOrSkipped` | scripts/migrate-neon-clean.ts:188-208 | every row is stored or skipped, so nothing skipped means everything stored |
| `BulkLoad.LoadedTable` | scripts/migrate-neon-clean.ts:173-209 | a table changes at its own turn only |
| `BulkLoad.MatchingCountsMeanComplete` | scripts/migrate-neon-clean.ts:212-236 | for empty tables all counts match exactly when every exported row is stored and no table with rows was passed over |
| `BulkLoad.RowsAreConserved` | scripts/migrate-neon-clean.ts:188-208 | the table afterwards and the rows skipped are, copy by copy, the table before and the rows exported |
| `BulkLoad.SkippedAreTheClashing` | scripts/migrate-neon-clean.ts:204-207 | if exported rows do not clash among themselves, those skipped are those that clash with a seeded row, and the seeded rows stay |
| `BulkLoad.MatchingCountsWithSeededRows` | scripts/migrate-neon-clean.ts:188-227 | with seeded rows the counts match exactly when as many rows were skipped as were seeded; the table holds exactly the exported rows when the rows skipped are the rows seeded; and no exported row is lost exactly when no skipped one is |
| `BulkLoad.LoadIsExactIff` | scripts/migrate-neon-clean.ts:173-236 | for every destination: all tables hold exactly their exported rows if and only if at each the rows skipped are the rows seeded, and then the counts match |
| `BulkLoad.SeededRowHidesALoss` | scripts/migrate-neon-clean.ts:204-236 | one clashing seeded row makes equal counts hide a lost row |

## Left out

- SQL text: migration bodies with their own commit, locks of the database other than the ledger key, `create table if not exists` of the ledger.
- Network and driver failures other than an abort between two statements or requests; a request that succeeds at the remote but whose answer is lost is not distinguished from an abort right behind it.
- The remote's refusal of a PUT to a wallet that does not exist: the model accepts any wallet id, so that referential integrity is the scripts' own doing.
- `changed` and `skipped` of the reprovision script: they compare a wallet id the remote does not echo back; the results are about the remote's state.
- The guards of the fix script against an unset or production base URL, and argument parsing and console output everywhere.
- The stub's virtual account endpoint, which answers with a constant; path decoding, JSON bodies and header names of the stub, and chain names that are properties of every JavaScript object.
- Base32 input outside the alphabet for the script's decoder, which turns it into bits of `-1`; the service's decoder, which rejects it, is modelled.
- HMAC-SHA1 and SHA-256 themselves; recovery codes, recovery questions and the encryption of stored secrets.
- Floating point in the phantom classifier and the poller: amounts are integers; malformed numbers in a stored payload.
- The poller's watch list, chain filter and mock providers; the idempotency keys of recorded deposits, which differ between scans; withdrawals from the polled wallet.
- The regular expression that finds INSERT statements: its matches are the input of `Collect`.
- CommaCountIsExactIffFlat: an expression ends at a comma outside parentheses, brackets, and single or double quotes; dollar quotes, backslash escapes, comments and JavaScript interpolations in the values text are not told apart from plain text.
- The check of the auth-challenge statement by name, and everything that test does over the API.
- Masking, monthly cost, fee report and JSON output of the audit.
- Value conversion and column order in the bulk load, and its re-run of the migrations, which is the ledger protocol with a rethrow.
- The literal list of tables in the bulk load: the model takes any list without repetitions that does not hold the ledger.
- Smoke, demo, screenshot, health-check and seed scripts, one-off SQL scripts, and the application's services beyond those cited.
