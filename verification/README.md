# Wallet vault and engine models

A Dafny model of the parts of the wallet whose behaviour spans several functions or whole runs, with
proofs of what those parts keep. `dafny verify dfyconfig.toml` checks all of it.

## What is modelled

**The multi-wallet vault** (`src/vault-schema.ts`). The stored vault is an ordered list of wallet
entries in groups; the app works on a flat payload of one group. The model holds the migration to
the list, the projection of a group ("get"), the merge of a flat payload ("put"), the wallet edits,
the allocation of sidecar files and the repair of shared ones. `FlatShape` has the conversions,
`MergeOrder` and `MergeLaws` what a merge does to the list, `LensLaws` the get/put laws, `Contexts`
the switcher's grouping, `FileNames`, `Repair` and `RepairLaws` the files, `Runs` whole runs of
edits and the invariant that keeps files apart, `Seeds` and `LegacyZano` the seeds over such runs,
`EditLaws` what renames, repairs and removals leave alone, `SavedWallets` and `AddLaws` what is read
and stored field by field, `SeedWords` when two seeds are the same, and `Hazards` the inputs on which the code
keeps less than its comments say. Loops of the source are methods proved against a function; what
the function guarantees is proved about the function.

**The encrypted store** (`src/store.ts`). Two keys of one file, with encryption as an abstract
sealed blob: a class whose methods record every content the file may be flushed with, runs with
crashes at any of those points, and calls that overlap at every awaited operation: `StoreEffects`
has what each call leaves on file, `StoreSafety` and `StoreInterleaving` what becomes of the original,
and `StoreOverlaps` what becomes of seeds saved before.

**The process-tree sampler** (`src-tauri/src/mem_watch.rs`). The worklist walk over an arbitrary
table, equated with the least closed set, and the sums over that set; `TreeRows` equates the set with
what paths of rows reach.

**Smaller cores.** The least-squares fit over the reals (`tools/fit-transport-model.py`), decimal
amounts (`src-tauri/src/pool_stats.rs`, `src-tauri/src/pool_payout.rs`), descriptors and the
redaction loop (`src-tauri/src/descriptors.rs`), engine identifiers (`src-tauri/src/grove.rs`) and
the request tokens of the balance refreshes (`src/App.tsx`).

## Conventions

- `null` and `undefined` are `None`; an empty string stays a string, and `Truthy` tells them apart
  where the source does.
- `genId` is a record of ids named by the place that asks for one; freshness is a hypothesis where a
  law needs it. Ids are unique, and "active", "all" and "" are excluded exactly where they matter.
- `Array.prototype.sort` and `sort_by_key` are a stable sort; `StableSort.SortUnique` shows that
  stability and sortedness leave one possible result. `localeCompare` is a rank of ids in the reals.
- A file slot is a pair of kind and name, where the source joins the two with a slash.
- How floats round when they are printed is a parameter of the decimal work; the fit is over exact
  reals.
- In `Scrub` a text is its bytes, one `char` per byte, as Rust's string replacement sees it.
- In `Balances` every displayed text carries the address it was fetched for, which the source does
  not store; statements about whose balance is on display need it.

## Where the code does less than its comments say

Each has a lemma with a failing input, and another with the condition under which the code does what
is promised.

- A flat save drops every seed it has no place for: with a private-key account open, saving what was
  read deletes the account's key, and a second wallet of one kind in the open group goes the same way
  (`Hazards.SavingOnAKeyAccountLosesTheKey`, `Hazards.SavingDropsTheSecondOfAKind`). Exactly when all
  seeds stay: `Seeds.SeedsKeptExactly`.
- A vault-wide Zano seed that has not become an entry is deleted by saving what was read in any
  context but the one that reads it (`Hazards.SecondContextSaveDropsLegacySeed`,
  `LegacyZano.LegacySeedKeptExactly`).
- An existing Monero or Zephyr entry that stores no file name is given the legacy name by a flat
  save, although line 236 of `src/vault-schema.ts` says an existing entry is never renamed; Zano
  only when the vault has a vault-wide Zano seed (`Hazards.NamelessEntryIsRenamed`,
  `Hazards.FileKeptExactly`). Such a vault has been written by something else: no run from a migrated
  vault leads to one (`Runs.RunsStoreFileNames`).
- After any flat save that stores a Zano seed, importing one into a second context hands out
  `pwnda.zan` again while the first holder still has it (`Hazards.SecondZanoTakesMainsFile`,
  `Runs.ZanoFilesExact`).
- A Zano wallet saved into a second context also shows in the primary context when that has none
  (`Hazards.SecondZanoShowsInMain`, `MergeLaws.ZanoIsolationExact`).
- Removing the first bip39 wallet makes another context the primary one, and hands it the vault-wide
  Zano seed (`Hazards.RemovingMainHandsOnItsZano`, `EditLaws.RemovalIsIsolated`).
- Lines 97-103 of `src/vault-schema.ts` say that a promoted Zano entry behaves exactly like a Monero
  one. A removed Monero wallet is no longer read; the only Zano wallet of the primary context still
  is after its removal, from the vault-wide copy (`Hazards.RemovedZanoIsStillRead`,
  `EditLaws.RemovedKindIsRead`).
- Put-get fails when the save drops the open wallet itself and another group is primary: the next
  read answers with the other group's seed (`Hazards.ForgettingTheOpenWalletReadsMain`,
  `LensLaws.GroupAfterSave`, `LensLaws.PutGet`).
- `saveVault` takes a failed read for an empty vault, so it overwrites an unmigrated vault without a
  backup exactly when the password is wrong and no backup exists
  (`StoreSafety.SaveKeepsOriginalExactly`; any such password is an input).
- Two saves that both read before either writes end on the second alone, which takes back every seed
  the first brought in and it does not name (`StoreOverlaps.SecondSaveWins`,
  `StoreOverlaps.FirstSaveIsTakenBack`). A completed save's seeds stay when no call that had read
  before it writes after it and later saves strand none (`StoreOverlaps.WrittenSeedsStay`).
- Lines 551-552 of `src/App.tsx` say the request counter is raised on every wallet and chain
  transition; only `refreshBalance` raises it, and it does not know the sweep's counters, so an
  answer from before a switch can put the old wallet's number back
  (`Balances.LateFocalAnswerOverwritesTheSweep`, `Balances.ForeignNumberExactly`).
- The emit meter promises never to report a wrapped number, but cuts the 128-bit quotient to 64
  bits (`EmitRate.BurstCanReadAsZero`, `EmitRate.RateExact`).
- The redaction loop can put a secret together from its own marker. One secret is removed from every
  text exactly when it is clean: not part of the marker, not containing it, not beginning as it ends,
  and found earlier wherever its rest would stand in front of it
  (`Scrub.MarkerCanSpellASecret`, which gives a leaking text for every other secret). In a list the
  marker of another secret matters too (`Scrub.MarkerOfAnotherSecret`): a secret is removed from every
  text, whatever other secrets are looked for, exactly when it is apart from the marker, so when it
  does not end as the marker begins either (`Scrub.LeaksExactly`). The shortest secret of a list need
  only be clean (`Scrub.ShortestIsRemoved`).

## Model

| member | source | states |
|---|---|---|
| FlatShape.MigrateByPushing | src/vault-schema.ts:402-469 | the migration's pushes build the specified vault: one bip39 entry, and one per seed the payload has, on the legacy files |
| FlatShape.PushRebuilt | src/vault-schema.ts:650-719 | the pushes of the merge list exactly the entries the payload describes, reusing id, name, age and file of the entry that was there |
| FlatShape.MergeByPushing | src/vault-schema.ts:631-769 | the merge as written, extending and sorting a local list and setting optional fields, equals the merge the laws are about |
| MergeOrder.MergeKeepsOrder | src/vault-schema.ts:732-747 | rebuilding the group and sorting by old position replaces each wallet where it stands; survivors keep their order and new entries come last |
| MergeLaws.InMerged | src/vault-schema.ts:721-739 | exactly which entries a merged vault holds: other groups, Xelis, and what the payload describes |
| MergeLaws.MergeKeepsIdsUnique | src/vault-schema.ts:631-769 | a merge keeps ids unique |
| MergeLaws.OtherGroupsUntouched | src/vault-schema.ts:721-722 | the wallets of every other group come through as the same list |
| MergeLaws.XelisCarriedThrough | src/vault-schema.ts:724-732 | no payload can touch the Xelis wallets: their exact sub-list survives |
| MergeLaws.MergeKeepsPrimary | src/vault-schema.ts:734-747 | with a bip39 entry in the vault a save never changes which group is primary; without one the written group becomes primary |
| MergeLaws.FirstOfTarget | src/vault-schema.ts:640-646 | after a save the first wallet of each flat kind in the written group is the one the payload describes, or none |
| MergeLaws.IsolationExceptZano | src/vault-schema.ts:577-610 | a save changes nothing but Zano in what any other context reads |
| MergeLaws.ZanoReadElsewhere | src/vault-schema.ts:531-544 | what another context reads for Zano changes only in the primary group, and exactly when the guard fails |
| MergeLaws.ZanoIsolationExact | src/vault-schema.ts:749-766 | Zano is isolated exactly when the target is primary, or the primary group has its own Zano entry, or the top-level seed the primary group reads does not change |
| MergeLaws.SaveIsIsolated | src/vault-schema.ts:631-769 | saving on one wallet leaves what is read for a wallet of any other context unchanged, the acknowledgment aside, and Zano under the guard |
| LensLaws.ProjectMigrate | src/vault-schema.ts:402-469 | a migrated vault reads back as the payload it came from, whichever wallet is open, falsy seeds folded to absent |
| LensLaws.MigratedKinds | src/vault-schema.ts:402-469 | migration writes what a flat save into an empty vault would write |
| LensLaws.PutGetGroup | src/vault-schema.ts:577-610 | the group that was written reads back as the payload, up to falsy values and the sticky acknowledgment |
| LensLaws.GroupAfterSave | src/vault-schema.ts:559-566 | after a save the open wallet is read from the written group, or from the primary group as it was exactly when the save dropped that wallet |
| LensLaws.PutGet | src/vault-schema.ts:577-769 | put-get: what was saved is what is read, unless the save dropped the open wallet while another group is primary |
| LensLaws.GetPut | src/vault-schema.ts:577-769 | get-put: saving what was read gives back the same wallets in the same order, with group ids written out, exactly when the group is well formed |
| LensLaws.CanonicalIsRebuilt | src/vault-schema.ts:650-719 | an entry comes back from get and put exactly when it stores only what the flat shape carries |
| SavedWallets.PrimaryByPosition | src/vault-schema.ts:493-503 | the primary group is that of the first bip39 wallet, or of the first wallet when none is bip39; a wallet without a group id is its own group |
| SavedWallets.ReadByPosition | src/vault-schema.ts:577-610 | every field of the payload comes from the first wallet of its kind in the open group |
| SavedWallets.ReadWithoutOne | src/vault-schema.ts:531-610 | without such a wallet the field is absent; for Zano the vault-wide seed and passphrase stand in, in the primary group only |
| SavedWallets.SavedWallet | src/vault-schema.ts:640-719 | per kind a save stores one wallet in the open group, with the payload's fields and no others, and the id, name and age of the first that was there, or new ones |
| SavedWallets.ForgottenKind | src/vault-schema.ts:663-719 | a kind whose seed the payload lacks has no wallet in the open group after a save |
| SavedWallets.SavedFile | src/vault-schema.ts:249-261 | the file name of each saved wallet, letter by letter: a stored name stays, a new Monero or Zephyr wallet takes the legacy name exactly when no wallet of its kind opens it, a new Zano wallet exactly when there is no vault or it carries a vault-wide Zano seed |
| SavedWallets.SavedAround | src/vault-schema.ts:749-769 | a save keeps the active wallet, the balance cache and the acknowledgment, and sets the vault-wide Zano fields from the payload |
| Contexts.GroupByKey | src/vault-schema.ts:1048-1055 | the grouping loop lists keys by first occurrence, each with exactly its wallets in order |
| Contexts.ComputeContexts | src/vault-schema.ts:1047-1074 | the two loops and two sorts compute the context list |
| Contexts.ContextsPermuteWallets | src/vault-schema.ts:1047-1074 | the members of all contexts are a permutation of the wallets |
| Contexts.ContextsPartition | src/vault-schema.ts:1047-1074 | every wallet is in the one context of its own group key and in no other |
| Contexts.ContextsAreLedByBip39 | src/vault-schema.ts:1058-1064 | within a context bip39 entries come first, then age; the context's id and name are its first member's; no two contexts share a group |
| Contexts.PrimaryContextFirst | src/vault-schema.ts:1066-1073 | the first context is the primary group's |
| Contexts.DistinctContexts | src/vault-schema.ts:1047-1074 | no two contexts of the list share a group |
| Contexts.ContextsByAge | src/vault-schema.ts:1066-1073 | after the first, each context has a wallet that is no younger than any wallet of a later context |
| Contexts.SharesContextExactly | src/vault-schema.ts:493-495 | two wallets share a context exactly when their group ids are the same, or one names the other's id while that one has none |
| Contexts.GroupIdForWalletIsGroupOf | src/vault-schema.ts:559-566 | grouping, two sorts and a search amount to the group key of the entry with that id, else the primary group |
| Contexts.ActiveContextMembership | src/vault-schema.ts:865-867 | an entry is in the active context exactly when it is a member of the context the switcher has open |
| FileNames.CanonicalNamesInjective | src/vault-schema.ts:204-215 | canonical names of different ids differ |
| FileNames.LegacyIsNotCanonical | src/vault-schema.ts:196-215 | the one id whose canonical name is a legacy name is "active", for Zephyr |
| Repair.CollectSlots | src/vault-schema.ts:334-346 | the first loop collects, per file, exactly the wallets on it in order, and the set of files in use |
| Repair.MoveLosers | src/vault-schema.ts:359-368 | the inner loop moves each loser whose own name is free and skips the others |
| Repair.MoveShared | src/vault-schema.ts:350-369 | the loop over shared files moves all but the first in keeper order |
| Repair.RepairSharedSidecarFiles | src/vault-schema.ts:330-379 | the pass returns the specified vault and list of moves, and the same vault when nothing moved |
| RepairLaws.RepairsListMovedWallets | src/vault-schema.ts:367 | the moves listed are exactly those of the wallets that move, each once |
| RepairLaws.RepairSays | src/vault-schema.ts:367 | each report names the wallet, the file it shared and its own file |
| RepairLaws.RepairIsAfter | src/vault-schema.ts:371-378 | the repair changes nothing but the stored file of the wallets that move |
| RepairLaws.KeeperIsLeast | src/vault-schema.ts:352-357 | the wallet that keeps a file is of the primary group if any on the file is; of those alike in that it is an oldest, and of those of one age the first by id |
| RepairLaws.RepairMovesTheOthers | src/vault-schema.ts:350-378 | a wallet that goes before all others on its file stays as it was stored, and each other one ends on its own file unless that is in use |
| RepairLaws.MainKeepsTheSharedFile | src/vault-schema.ts:350-378 | with two contexts on Main's file, Main's wallet keeps it and the other moves, though Main's is the younger |
| RepairLaws.UsedAfter | src/vault-schema.ts:359-368 | the files in use afterwards are those from before and the moved wallets' own names |
| RepairLaws.RepairKeepsFilesInUse | src/vault-schema.ts:330-379 | every file that was in use is still in use |
| RepairLaws.RepairSeparatesExactly | src/vault-schema.ts:363-364 | no two wallets share a file afterwards, exactly when no move had to be skipped |
| RepairLaws.RepairSeparates | src/vault-schema.ts:330-379 | without borrowed canonical names no two wallets share a file afterwards |
| RepairLaws.RepairIdempotent | src/vault-schema.ts:330-379 | a second pass changes and reports nothing, also when moves were skipped |
| Crud.XelisSavedOnce | src/vault-schema.ts:948-987 | saving the same Xelis seed again changes nothing |
| Crud.SlotAddIsRead | src/vault-schema.ts:846-926 | a wallet added into the primary group's free slot is what unlock reads for that kind, and the slot is taken |
| AddLaws.AddedWallet | src/vault-schema.ts:888-926 | an added wallet comes last, with the fields its kind has a use for and none of the others, on the file named after it |
| AddLaws.SlotExactly | src/vault-schema.ts:846-857 | there is a slot exactly for a kind with a file of which the primary group has no wallet and, for Zano, no vault-wide seed |
| AddLaws.XelisBesideOne | src/vault-schema.ts:952-963 | beside a Xelis wallet in the open context the same words change nothing and any others are refused |
| AddLaws.XelisOfSavedWords | src/vault-schema.ts:965-971 | otherwise words that some wallet has are refused, naming the first that has them |
| AddLaws.XelisAdded | src/vault-schema.ts:973-987 | and any others are added to the open context, under its name and on a file of their own |
| EditLaws.RenameIsExact | src/vault-schema.ts:990-999 | a rename gives the wallet with the id the new name and changes nothing else |
| EditLaws.RenameIsNotRead | src/vault-schema.ts:990-999 | renaming a wallet changes no payload, whichever wallet is open |
| EditLaws.RepairIsNotRead | src/vault-schema.ts:371-378 | the repair changes no payload, whichever wallet is open |
| EditLaws.RemovalIsExact | src/vault-schema.ts:1007-1016 | a removal takes exactly the wallet it names, never leaves it as the active one, and keeps the vault-wide Zano seed |
| EditLaws.RemovalIsIsolated | src/vault-schema.ts:1007-1016 | a removal leaves what every other context reads unchanged but for Zano, and Zano exactly when that context has its own entry, or there is no vault-wide seed, or the removal does not change whether it is the primary one |
| EditLaws.RemovedKindIsRead | src/vault-schema.ts:1007-1016 | when the only wallet of its kind in a context is removed, the context reads nothing for Monero and Zephyr, and for Zano the vault-wide seed exactly when there is one and the context is the primary one |
| Runs.MigratedIsSound | src/vault-schema.ts:402-469 | a migrated vault meets the run invariant |
| Runs.MergeKeepsSound | src/vault-schema.ts:631-769 | a flat save keeps the invariant of the files: proper stored names, no file shared, group keys apart from ids |
| Runs.StepKeepsSound | src/vault-schema.ts:888-1016 | every edit keeps the invariant |
| Runs.RunKeepsSound | src/vault-schema.ts:631-1016 | so does every run of edits |
| Runs.RebuiltFileIsFree | src/vault-schema.ts:249-261 | the file a flat save gives an entry is held by no other wallet |
| Runs.FilesNeverShared | src/vault-schema.ts:196-261 | from a migrated vault no run puts two Monero, Zephyr or Xelis wallets on one file, nor two Zano wallets under the guard |
| Runs.ZanoFilesExact | src/vault-schema.ts:708-714 | a flat save leaves Zano files unshared exactly unless it brings a Zano seed new to its group into a vault that carries a vault-wide one while some wallet is on `pwnda.zan`; without a vault-wide seed nothing is asked |
| Runs.RepairSeparatesSound | src/vault-schema.ts:330-379 | whatever happened to Zano's legacy name in a run, one repair separates all files |
| Runs.RunsStoreFileNames | src/vault-schema.ts:402-714 | in every run from a migrated vault each wallet with a file stores its name and its group |
| SeedWords.SameSeedExactly | src/vault-schema.ts:774-776 | two seeds count as the same exactly when their words are, case aside; a seed compares as empty exactly when it is blank; comparing is idempotent |
| SeedWords.NormalizedByParts | src/vault-schema.ts:774-776 | a text without space is lower-cased, and any space between two texts counts as one, or as none beside a blank text |
| SeedWords.RefusedExactly | src/vault-schema.ts:286-300 | the guard refuses exactly when a seed is stored and the words differ, or for Zano the passphrase does, and says which |
| SeedWords.ResavingIsAllowed | src/vault-schema.ts:278-279 | a save that brings the stored words back, with any heights, format or derivation, passes the guard |
| SeedWords.NewHeightIsSaved | src/vault-schema.ts:278-279 | in particular a new restore height for the stored Monero seed |
| Seeds.GuardKeepsKeys | src/vault-schema.ts:286-300 | a save the guard lets through names every seed that was read, the Zano passphrase included |
| Seeds.MergedSeeds | src/vault-schema.ts:721-739 | the seeds of a merged vault are exactly those of the carried wallets and of the payload |
| Seeds.SeedsKeptExactly | src/vault-schema.ts:631-769 | on any vault with unique ids a guarded flat save keeps every stored seed exactly when each wallet it has no place for has its seed among the carried wallets or in the payload |
| Seeds.ForgetKeepsExactly | src/vault-schema.ts:631-769 | a forget keeps every seed but the one it names, under exactly the same condition |
| Seeds.StepKeepsSeeds | src/vault-schema.ts:286-1016 | a step that strands none keeps every stored seed but those it was asked to drop |
| Seeds.NoSeedLost | src/vault-schema.ts:286-1016 | from any vault with unique ids, over any run of steps that strand none, a stored seed stays stored unless a removal or an explicit forget named it |
| Seeds.DisciplinedRunLosesNone | src/vault-schema.ts:286-1016 | with at most one wallet of a flat kind per group, and saves only into groups without single-chain accounts, no run strands or loses a seed, whatever files the wallets are on and whether they are grouped |
| Seeds.MigratedSeedsStay | src/vault-schema.ts:402-469 | in particular none of the seeds a vault was migrated with is lost |
| LegacyZano.LegacySeedKeptExactly | src/vault-schema.ts:531-544 | on any vault a guarded save that does not bring in the same seed keeps an unpromoted vault-wide Zano seed exactly when the written context is the one that reads it |
| LegacyZano.NoStoredSeedLost | src/vault-schema.ts:749-766 | from any vault with unique ids no run loses a seed, the vault-wide one included, while saves strand none and go to the context that reads it |
| Hazards.SavingOnAKeyAccountLosesTheKey | src/vault-schema.ts:721-739 | with a private-key account open, saving exactly what was read deletes its key |
| Hazards.SavingDropsTheSecondOfAKind | src/vault-schema.ts:640-646 | a second Monero wallet in the open group is deleted by saving what was read |
| Hazards.SecondContextSaveDropsLegacySeed | src/vault-schema.ts:749-766 | with a second context open, saving exactly what was read deletes the only copy of a vault-wide Zano seed |
| Hazards.FileKeptExactly | src/vault-schema.ts:681-714 | a flat save leaves an existing entry's file alone exactly when the entry stores its name, or the legacy name is its own anyway |
| Hazards.NamelessEntryIsRenamed | src/vault-schema.ts:681-683 | an entry that opens its canonical file because it stores no name is moved to the legacy name by a save |
| Hazards.SecondZanoTakesMainsFile | src/vault-schema.ts:708-714 | a Zano import into the second context lands on the first one's file |
| Hazards.RemovedZanoIsStillRead | src/vault-schema.ts:97-103 | removing the only Zano wallet of the primary context leaves its seed to be read there |
| Hazards.RemovingMainHandsOnItsZano | src/vault-schema.ts:1007-1016 | removing the first bip39 wallet hands the vault-wide Zano seed to the next context |
| Hazards.SecondZanoShowsInMain | src/vault-schema.ts:531-544 | a Zano import into the second context shows in a primary context without one |
| Hazards.ForgettingTheOpenWalletReadsMain | src/vault-schema.ts:559-566 | forgetting the open wallet of another context makes the next read answer with the primary context's seed in place of the one just read and saved |
| Store.VaultStore.ReadVaultRaw | src/store.ts:56-78 | reading decrypts, migrates in memory and writes nothing; a missing wallet and a wrong password are told apart |
| Store.VaultStore.BackupPreV3Once | src/store.ts:81-86 | the ciphertext is backed up once, before it is overwritten, and only for an older vault |
| Store.VaultStore.LoadVaultV3 | src/store.ts:120-125 | a load returns the migrated vault and passes through exactly the backup and then the migrated content |
| Store.VaultStore.LoadVault | src/store.ts:105-113 | the same, returning the payload of the open context |
| Store.VaultStore.SaveVault | src/store.ts:136-145 | a flat save reads, backs up, merges and writes, in that order; a failed read counts as an empty vault |
| Store.VaultStore.DeleteWallet | src/store.ts:156-163 | deleting removes the wallet and then the backup |
| StoreEffects.SaveKeepsTheRest | src/store.ts:136-154 | after a flat save the wallet opens under the same password to a vault with every wallet outside the written group and every Xelis wallet, in order, and the same active wallet and balance cache |
| StoreEffects.SaveIsReadBack | src/store.ts:136-154 | and the saved payload is the one read from it, under the condition of put-get |
| StoreEffects.SaveWithoutReading | src/store.ts:141-144 | when the vault cannot be read, what is on file afterwards is the migrated shape of the payload alone |
| StoreEffects.SaveOverOlder | src/store.ts:136-145 | a save over an older wallet backs its ciphertext up and leaves one group that reads back as the payload |
| StoreEffects.LoadWithoutMigrating | src/store.ts:56-78 | a load that cannot read, or finds the current shape, leaves the file as it is and answers with the fault or the vault |
| StoreEffects.LoadMigrates | src/store.ts:105-125 | a load of an older wallet backs it up, leaves a vault that reads back as the older payload, and answers with that vault |
| StoreEffects.SaveV3AndDelete | src/store.ts:147-163 | a whole vault is stored as it is; deleting leaves neither key |
| StoreSafety.CallIsSafe | src/store.ts:81-154 | at every flush point of a disciplined call the original ciphertext is on file under one key or the other |
| StoreSafety.RunIsSafe | src/store.ts:56-154 | so it is at every flush point of every run with crashes anywhere, and the wallet opens to the original or to a later save |
| StoreSafety.MigrationNeverLosesTheOriginal | src/store.ts:89-92 | from the first start on an unmigrated vault, no reachable content has lost the original |
| StoreSafety.BackupIsWrittenOnce | src/store.ts:81-86 | once the backup is on file it is the same at every flush point of every run with crashes |
| StoreSafety.Replay | src/store.ts:56-163 | the store object, driven through any run of calls and crashes, holds exactly what the run of the laws ends on, and that is one of the contents the laws range over |
| StoreSafety.LoadIsStable | src/store.ts:105-125 | loading again returns the same vault and writes nothing |
| StoreSafety.SaveKeepsOriginalExactly | src/store.ts:136-145 | a flat save keeps an unmigrated vault's ciphertext exactly when it uses the vault's password or the backup was there |
| StoreEffects.AloneIsTheWholeCall | src/store.ts:56-154 | a call that nothing overlaps, taken one awaited operation at a time, passes through exactly the contents of the call as a whole and ends on the same one |
| StoreInterleaving.EventIsSafe | src/store.ts:56-154 | one awaited operation of one call keeps the file safe and what every other call in flight relies on |
| StoreInterleaving.OverlappingRunsKeepTheOriginal | src/store.ts:81-154 | however calls overlap and wherever the app crashes, no content the file may hold has lost the original |
| StoreOverlaps.SecondSaveWins | src/store.ts:136-145 | two saves that have both read before either writes leave every content on file determined, and the last is the second save merged into the vault from before the first |
| StoreOverlaps.FirstSaveIsTakenBack | src/store.ts:136-145 | a seed the first save brings in is on file after it, and after the second exactly when that one names it too |
| StoreOverlaps.CompletedSaveStays | src/store.ts:56-154 | seeds on file stay there in every overlapping run, crashes included, while no call that read before them writes and every flat save strands none of the vault it reads |
| StoreOverlaps.WrittenSeedsStay | src/store.ts:136-154 | from the write of a save on, its seeds stay on file in every such run in which no call that had read before it writes |
| MemWatch.TreeIsLeast | src-tauri/src/mem_watch.rs:443-537 | the declared tree is the least set that holds our process and every accepted child |
| TreeRows.TreeIsReachable | src-tauri/src/mem_watch.rs:469-537 | with unique pids the tree is exactly what paths of rows reach from our process, each row a child of the one before and not the older of the two while both timestamps are known |
| TreeRows.CountedWithItsParent | src-tauri/src/mem_watch.rs:525-533 | a child of a counted row is counted unless both timestamps are known and it is the older |
| TreeRows.CountedThroughAParent | src-tauri/src/mem_watch.rs:519-537 | everything counted but our own process has a counted parent |
| TreeRows.ReusedExactly | src-tauri/src/mem_watch.rs:525-533 | the reused pids are exactly those of rows older than a counted parent |
| TreeRows.RowIsViewed | src-tauri/src/mem_watch.rs:474-481 | what is counted of a row are its own bytes, commit, type and the role of its name |
| MemWatch.BuildTables | src-tauri/src/mem_watch.rs:446-463 | the maps filled by the pass over the rows answer as the table does, later rows winning |
| MemWatch.CountProcess | src-tauri/src/mem_watch.rs:477-517 | counting one process takes every accumulator from one set of processes to that set with the process added |
| TreeWalk.PushKids | src-tauri/src/mem_watch.rs:519-537 | the children pushed are those neither visited nor rejected, and the rejected ones are counted |
| TreeWalk.VisitNext | src-tauri/src/mem_watch.rs:469-537 | a visit keeps the walk's invariant |
| TreeWalk.WalkedIsTree | src-tauri/src/mem_watch.rs:469-472 | a finished walk has visited exactly the tree |
| TreeWalk.ReusedStep | src-tauri/src/mem_watch.rs:525-535 | with unique pids a visit adds exactly its rejected children to the count of reused pids |
| TreeWalk.AggregateTree | src-tauri/src/mem_watch.rs:443-537 | on every table, cycles and self-parents included, the walk ends and its result aggregates the tree; reused pids are counted once each |
| TreeWalk.RolesAddUp | src-tauri/src/mem_watch.rs:482-515 | the five role buckets add up to the tree, in working set and in commit |
| TreeWalk.TypedWithinWebview | src-tauri/src/mem_watch.rs:488-499 | the typed webview totals never exceed the webview bucket |
| TreeWalk.NothingOlderThanUs | src-tauri/src/mem_watch.rs:525-533 | with all timestamps known nothing counted predates our process |
| TreeWalk.SubtreeIsCut | src-tauri/src/mem_watch.rs:525-535 | a rejected process takes its whole subtree with it |
| TreeWalk.TreeIgnoresOrder | src-tauri/src/mem_watch.rs:443-537 | the tree and the reused pids do not depend on row order |
| TreeWalk.TotalsIgnoreOrder | src-tauri/src/mem_watch.rs:443-537 | nor do the totals, the role buckets, the typed totals and the largest renderer |
| EmitRate.RateExact | src-tauri/src/mem_watch.rs:137-142 | the reported rate is the true one rounded down exactly when that fits 64 bits, and then over budget exactly when it is |
| EmitRate.NoProgressIsZero | src-tauri/src/mem_watch.rs:134-140 | a stalled clock or a counter that did not grow reads as zero |
| EmitRate.BurstCanReadAsZero | src-tauri/src/mem_watch.rs:134-142 | a rate beyond 64 bits is cut, so a burst can read as none |
| FitLinear.FitExists | tools/fit-transport-model.py:76-86 | there is a fit exactly when two samples have different sizes |
| FitLinear.NormalEquations | tools/fit-transport-model.py:82-88 | the residuals of the fitted line sum to zero, alone and weighted by size |
| FitLinear.LossFromFit | tools/fit-transport-model.py:87-89 | moving away from the fitted line costs exactly the squares of the move |
| FitLinear.FitIsLeastSquares | tools/fit-transport-model.py:76-92 | no line has a smaller sum of squared residuals, and every other line has a larger one |
| FitLinear.R2IsAShare | tools/fit-transport-model.py:89-91 | r2 lies between 0 and 1 |
| FitLinear.R2IsTheShareExplained | tools/fit-transport-model.py:89-91 | the loss of the line is the rest of the loss about the mean that r2 leaves; r2 is 1 exactly when the line meets every sample, 0 exactly when it is level and the times differ |
| FitLinear.CollinearIsRecovered | tools/fit-transport-model.py:76-92 | samples on a line give back that line with r2 of 1 |
| FitLinear.FitIgnoresOrder | tools/fit-transport-model.py:76-92 | the result is the same for every order of the samples |
| Digits.DecIsCanonical | src-tauri/src/pool_stats.rs:786-787 | a printed number has no leading zero unless it is zero, and its digits stand for it |
| Digits.CanonicalIsDec | src-tauri/src/pool_stats.rs:786-787 | it is the only numeral of that form |
| Digits.TrimmedIsDec | src-tauri/src/pool_stats.rs:786-787 | trimming leading zeros, or writing "0", gives the canonical numeral of the digits' value |
| Digits.ParsesExactly | src-tauri/src/grove.rs:306-311 | an unsigned number is read exactly from digits of a value that fits, with or without one plus in front |
| Amounts.AtomicOfRendered | src-tauri/src/pool_stats.rs:777-787 | a rendered I.F with d places becomes the canonical numeral of I times ten to the d plus F |
| Amounts.AtomicIsExact | src-tauri/src/pool_stats.rs:772-788 | an amount becomes the numeral of its value in atomic units; negative and non-finite amounts are refused, negative zero is zero |
| Amounts.AmountIsTrimmed | src-tauri/src/pool_payout.rs:455-471 | what is displayed: sign, untouched whole part, the fraction without trailing zeros or no point at all, and the ticker |
| Amounts.ShownFractionValue | src-tauri/src/pool_payout.rs:461-466 | the trimmed fraction keeps its value, has no trailing zero, and is empty exactly when it is zero |
| Amounts.ShownReadsBack | src-tauri/src/pool_payout.rs:455-471 | reading the display back at six places or more gives the amount that was displayed |
| Amounts.DisplayAndAtomicAgree | src-tauri/src/pool_stats.rs:772-788 | the displayed amount shifted to atomic units is the numeral the display reads back as |
| Amounts.ShownIsInjective | src-tauri/src/pool_payout.rs:455-471 | two amounts look alike only when they round to the same six places and sign |
| Descriptors.DescriptorText | src-tauri/src/descriptors.rs:278-292 | the descriptor of each chain, letter by letter around fingerprint, key and branch |
| Descriptors.OursExactly | src-tauri/src/descriptors.rs:663-674 | a built descriptor is taken for ours exactly under its own fingerprint, case aside |
| Descriptors.ReadBackBranches | src-tauri/src/descriptors.rs:663-679 | the branches found in any listing are exactly those under our fingerprint, each once, ascending |
| Descriptors.ListedExactly | src-tauri/src/descriptors.rs:663-690 | in any listing of built descriptors the branches of a fingerprint are exactly those built under it, case aside, with a number of 32 bits |
| Descriptors.ReadBackConfirms | src-tauri/src/descriptors.rs:691-694 | confirmed exactly when both branches are listed |
| Descriptors.BranchRoundTrip | src-tauri/src/descriptors.rs:278-292 | the branch built into a descriptor is read back from it, with any checksum, for every 32-bit branch and none larger (BIP 380, "Key Expressions" and "Checksum") |
| Descriptors.ImportIsConfirmed | src-tauri/src/descriptors.rs:682-694 | a listing with both imported descriptors confirms the import, whatever else it holds |
| Scrub.ScrubLoop | src-tauri/src/descriptors.rs:714-725 | the loop replaces the secrets of eight bytes or more, longest first |
| Scrub.ReplaceBetweenPieces | src-tauri/src/descriptors.rs:724 | a replacement puts the marker where the secret stands and keeps the text between |
| Scrub.PiecesAreCut | src-tauri/src/descriptors.rs:724 | and those places are the occurrences from the left, each the next one, all of them |
| Scrub.AroundMarker | src-tauri/src/descriptors.rs:724 | an occurrence of a secret around an inserted marker lies on one side of it, or begins before it and ends in it |
| Scrub.ReplaceRemoves | src-tauri/src/descriptors.rs:724 | replacing a clean secret leaves no occurrence of it |
| Scrub.ReplaceAddsNone | src-tauri/src/descriptors.rs:724 | replacing one secret brings no other one about |
| Scrub.NoSecretSurvives | src-tauri/src/descriptors.rs:713-727 | no secret apart from the marker is left in any text, however often it occurs and however secrets nest |
| Scrub.ChangesOnlySecrets | src-tauri/src/descriptors.rs:713-727 | a text is changed exactly when it holds a secret that is looked for |
| Scrub.WholeSecretIsReplaced | src-tauri/src/descriptors.rs:715-719 | a secret on its own becomes the bare marker, even when shorter secrets are part of it |
| Scrub.ShortestFirstLeavesTheRest | src-tauri/src/descriptors.rs:715-719 | in the other order what surrounds the shorter secret stays in the text |
| Scrub.MarkerCanSpellASecret | src-tauri/src/descriptors.rs:724 | a single secret is left in some text exactly when it is not clean: part of the marker, containing it, beginning as it ends, or ending as it begins with no earlier match |
| Scrub.ShortestIsRemoved | src-tauri/src/descriptors.rs:715-725 | the shortest secret of a list is removed from every text if it is clean |
| Scrub.MarkerOfAnotherSecret | src-tauri/src/descriptors.rs:715-725 | the marker of another secret can complete a clean secret that was looked for before |
| Scrub.LeaksExactly | src-tauri/src/descriptors.rs:713-727 | a secret of eight bytes or more is left in some text beside some other secrets exactly when it is not apart from the marker |
| Grove.ParseInvertsPrint | src-tauri/src/grove.rs:301-311 | reading a printed identifier gives the version back exactly when its numbers fit their types, else nothing |
| Grove.ReadsThreeNumbers | src-tauri/src/grove.rs:303-311 | a version is read exactly from three numbers between dots and a patch level, each fitting its type |
| Grove.ExpectedIsReadable | src-tauri/src/grove.rs:145-150 | the expected identifier is the one printed for 0.19.0 at patch level 37, so "ahead" means a later version than that |
| Grove.NewerIsStrictTotalOrder | src-tauri/src/grove.rs:316-322 | "ahead" is a strict total order in which the patch level decides between equal upstreams, unlike build metadata in item 10 of SemVer 2.0.0 |
| Grove.NewerByFirstDifference | src-tauri/src/grove.rs:316-322 | the first number in which two versions differ decides, upstream from left to right and the patch level last |
| Grove.SpaceAroundIsIgnored | src-tauri/src/grove.rs:301-302 | white space around an identifier does not matter |
| Grove.RunEndsAtHighest | src-tauri/src/grove.rs:344-351 | over any run of builds the installation ends at the newest version it started from or was able to install |
| Grove.NeverMovesBackwards | src-tauri/src/grove.rs:344-351 | a readable installed engine is never replaced by an older one |
| Balances.BalanceBoard.StartHero | src/App.tsx:844-846 | a refresh raises the counter and remembers id, chain and address |
| Balances.BalanceBoard.ResolveHero | src/App.tsx:890-896 | an answer writes the focal number, the row and the recorded address only if it is the newest |
| Balances.BalanceBoard.StartSweep | src/App.tsx:981-983 | a sweep raises the counter of its chain |
| Balances.BalanceBoard.ResolveSweep | src/App.tsx:1044-1046 | an answer of the sweep writes its row and the recorded address only if it is the newest of its chain |
| Balances.BalanceBoard.FailSweep | src/App.tsx:1048-1065 | a failed sweep keeps a number of the same address and otherwise shows a dash |
| Balances.BalanceBoard.Hydrate | src/App.tsx:1126-1152 | with wallets open the loop keeps readings recorded for them and fills the rest from the cache; with none it leaves all as it was |
| Balances.Replay | src/App.tsx:836-1065 | the refs and state, driven through any run of events, hold what the laws say of the run |
| Balances.OnlyTheNewestWrites | src/App.tsx:890-896 | under every interleaving an answer is let through exactly when its request is the last one started on its lane |
| Balances.AnswerIsShown | src/App.tsx:890-896 | the answer of that request shows its text and address under its chain, and in the focal place if it is a focal one; any other changes nothing |
| Balances.FocalIsTheLastAnswer | src/App.tsx:890-891 | after any run the focal number is that of the last focal answer let through since the last reset |
| Balances.WritesIncrease | src/App.tsx:981-1046 | the ids of the writes of a lane strictly increase |
| Balances.RecordedAddressIsTheFetched | src/App.tsx:893-896 | after any run, a reading under a chain was fetched for the address recorded for the chain |
| Balances.FailureKeepsOwnNumbersOnly | src/App.tsx:1048-1065 | after a failed sweep the number that stays is of the address that failed, else a dash |
| Balances.LockShowsADash | src/App.tsx:998-1003 | a sweep that finds the coin locked shows a dash if it is the newest, and changes nothing else |
| Balances.NumbersKeptExactly | src/App.tsx:1126-1152 | of the numbers on display hydrating keeps exactly those of the wallets now open, and puts the cached number or nothing in place of the others |
| Balances.SwitchShowsOwnNumbersOnly | src/App.tsx:1126-1152 | after hydrating for open wallets every reading left is of one of them |
| Balances.ForeignNumberExactly | src/App.tsx:545-564 | after a switch, while new requests are for open wallets, a chain shows its own wallet's number at every moment exactly when no request from before the switch for another address comes back while it is still the last one started on its lane |
| Balances.SwitchIsSafeExactly | src/App.tsx:1126-1152 | the same for every run before the switch and every hydration |
| Balances.LateFocalAnswerOverwritesTheSweep | src/App.tsx:545-564 | a focal refresh from before a switch overwrites the new wallet's row with the old wallet's number |

## Left out

- Cryptography: encryption is a sealed blob that opens under its password; key derivation, salts and formats are not part of this model.
- Files, network, timers, React rendering, Tauri commands and process listing: their results are parameters or events.
- `NormalizeSeed` lower-cases ASCII only and splits at JavaScript's white space; other letters keep their case.
- `sameAddress`, `findDuplicateAddress`, `memberOfKind`, `shouldShowSwitcher`, `isPrimaryBip39`, `hasSavedWallet`: one-line readers that nothing else here needs.
- The sidecar clean-up behind `removeWalletEntry` is not modelled.
- Store.VaultStore.DeleteWallet: overlapping runs exclude deletion, which is meant to lose everything.
- StoreSafety.RunIsSafe: the plugin's delayed flush is the set of contents since the last explicit flush; a torn file is not modelled.
- Megabytes as floating point, the ten largest names, and the sorting of the typed totals in `mem_watch.rs`: rounding and presentation. The name lists of `classify_role` are a table that no law here depends on.
- FitLinear.FitIsLeastSquares: over exact reals, so nothing is said about the rounding of Python's floats.
- Reading JSON numbers and strings into floats, and how a float's digits are rounded: the decimal work starts at the rendered digits.
- The reward sum of `parse_herominers`, pool dialects and field mappings: folds over parsed fields.
- `redact_secrets`, the pattern pass after the redaction loop, is not part of this model.
- Grove.RunEndsAtHighest: whether the engine's directories belong to the installation is a given of each build, unpacking succeeds, and the bundle carries the version the build expects.
- Balances.OnlyTheNewestWrites: shared-coin overrides, sleeping chains and the concurrency limit of the sweep are not modelled; a request that never comes back stays in flight.
- The cached readings given to Balances.BalanceBoard.Hydrate are taken to be of the address they are stored under.
- Balances.BalanceBoard.Hydrate: rows and recorded addresses change in one step. `src/App.tsx:1143-1152` writes the ref with whatever the state updater has set by then; should React run the updater later, the ref keeps the previous wallet's addresses, and that order is not modelled.
