# Infinity Node: a verified model of its stateful core

Infinity Node is a companion daemon. It keeps an encrypted vault, an Ed25519
identity, a set of paired devices, a registry of pinned IPFS contents, and serves
tile archives, live snapshots and the swarm key of a private IPFS network. This
project models the parts of it where a failure in the middle of an operation, an
interleaving, or an off-by-one would matter, and proves what they keep.

Check everything with `dafny verify dfyconfig.toml` (Dafny 4.11).

## How it is built

**The security stack** (`Host`, `VaultCore`, `VaultRuns`, `VaultAnswers`, `IdentityCore`,
`IdentityRuns`, `IdentityAnswers`, `Boot`, `BootRuns`, `BootBlocks`, `BootAnswers`,
`BootRace`). A `Machine` is the vault database file, its
KDF sidecar, the temporary file that replaces the sidecar, and the OS keychain.
Every access to one of them is one `Effect`; a *plan* decides, effect by effect,
whether it works, fails (with or without leaving something behind) or is the
point where the process stops. The machine keeps a trace of all the images it
went through, so a statement about every image is a statement about every point
where the process could have died. Each operation exists twice: as a method that
drives a `Computer` in place, and as a function of the machine that the method is
proved equal to. The theorems are about the functions, for all plans and all runs.
A vault is given a meaning, `Contents`: no vault, a vault holding entries under
one passphrase, a sidecar beside a database never initialised, or files that
nothing opens. `OpensExactly` shows, for every disk, that this meaning is exactly
what `open` answers for every passphrase. The modules named `…Answers` say what a
caller gets: when each call succeeds, under every plan, which error it gives
otherwise, and that undisturbed vault calls are those of a plain vault
(`VaultAnswers.RunIsPlain`).

**Authentication** (`Session`, `Devices`, `Pairing`, `AuthServiceCore`,
`AuthAnswers`, `PairingRace`). The header codec, the signed message, the token store, the device
records and the facade over them; histories of whole calls; and a second machine
in which any number of handlers interleave at single accesses to the token table
and to the vault, whose steps are shown to be those calls when left alone.

**The pin registry** (`Pinning`, `Janitor`, `PinRuns`). A tracker class whose
invariant is that its cached totals are those of a full scan, its two files on
disk, the request handlers, the two halves of a janitor pass, their convergence,
and an interleaving of all writers with the history of what kubo ever reported.

**Exact algorithms** (`DiskWalk`, `Tiles`, `Stream`, `SwarmKeys`). The disk walk
against recursive sums over the tree, byte ranges against the sets of positions
of section 14.1.2 of RFC 9110, the push stream against the stutter-free sequence
of snapshots, and the swarm-key file against its codec and its repository.

`Wrappers`, `MachineInt`, `Text`, `Hex` and `Order` hold what they share: integers
that wrap as in the release build, string primitives and decimal numbers, the hex
codec, and the database's key order.

## Where the code and its documentation differ

The model follows the code. Each difference is proved, most of them as exact conditions.

- `vault.rs` promises that a failed `create` leaves no orphan file. It leaves the
  database file exactly for the plans of `VaultRuns.OrphanExactly`, and such a file
  blocks both `create` and `open` for ever (`VaultRuns.OrphanBlocksForever`).
- `change_passphrase` calls itself atomic. It is with at most one failing step
  (`VaultRuns.ChangeIsAllOrNothing`); a second failure, or a stop between `rekey`
  and the rename, leaves a vault nothing opens, exactly as
  `VaultRuns.LostExactlyWhenStranded` says.
- `init` is described as idempotent. Once a start has succeeded, starting really is
  (`BootRuns.StartsAreIdempotent`). Before that, an interrupted start may block the
  instance: from then on no start ever succeeds, which is so exactly in the states of
  `BootBlocks.NeverStartsExactly` and `BlockedExactly`. `BootBlocks.StartBlocksExactly`
  says, from every state, which interruptions do that: a first start that orphans the
  vault or leaves its seed alone (`FirstStartRetriesExactly`), an interrupted retry that
  leaves its seed beside the description of an earlier one (`InterruptedRetryBlocks`),
  and a start that stores a passphrase which is not that of the vault.
- Two instances that start for the first time together may both find no boot passphrase;
  the one that stores first then loses its vault. An instance is safe from this exactly
  as `BootRace.AgreementIsFinalExactly` says.
- A failed `create` is undone in the keychain only: the identity stays listed exactly
  as `IdentityRuns.FailedCreateStaysListed` says. `KeyMismatch` can occur without
  anyone substituting a key: exactly the calls of `IdentityRuns.MismatchArisesExactly`
  produce it (`IdentityRuns.MismatchWithoutSubstitution` is a run of two), and never
  once the creation of a name was completed (`IdentityRuns.MismatchMeansIncomplete`).
- `chemins.rs` says that two instances share the identity; `security.rs` gives a
  moved instance its own name (`Boot.NamesAreDistinct`).
- The error for an expired pairing token is never returned: expired tokens are
  collected before the search (`Pairing.PairingTokenStore.Consume`).
- The window check on timestamps accepts one timestamp 2^63 seconds in the past, the
  one whose distance has no absolute value (`Session.WindowExactly`).
- A revocation is final exactly when no handler is between the read and the write
  of `last_seen_at`, or between consuming a token and storing the device
  (`PairingRace.RevocationIsFinalExactly`).
- Writes of the registry are not atomic: what a restart finds is decided by the last
  write of each file (`Pinning.LastWriteDecides`, `OperationSurvivesExactly`), and a torn `pins.json` is an empty table
  (`Pinning.TornTableIsLost`).
- `tronque` means that some entry was met at the limit, not that something was left
  out (`DiskWalk.MarkExactly`, `DiskWalk.MarkDependsOnOrder`).
- The stream says that resuming starts pushing again. If nothing changed during the
  pause, nothing is sent (`Stream.ResumeIsSilentExactly`). And change detection is
  right exactly for hashes that tell the snapshots apart and from zero
  (`Stream.CurrentExactlyWhenToldApart`).

## Assumptions

Argon2id and the Ed25519 key pair are free constructors (equal outputs come from
equal inputs); signature verification and SHA-256 are parameters. JSON is an
inverse pair of functions. Database statements, `rekey` included, keychain calls and
`rename` are all-or-nothing; opening a database and writing a plain file are not. The Argon2
parameter limits are those of section 3.1 of RFC 9106. Trimming and header lengths
are those of ASCII text. Random tokens are new. Clock readings, random draws, what
the disk contains and what kubo answers are parameters.

## Model

| member | source | states |
|---|---|---|
| VaultCore.DeriveKey | crates/vault/src/crypto.rs:139-170 | a key comes only from a passphrase of at least eight characters, and every refusal is a weak passphrase or a corrupted header |
| VaultCore.DefaultHeaderDerives | crates/vault/src/crypto.rs:67-78 | a fresh header derives a key from every long enough passphrase, its hex salt decoding back |
| VaultCore.Vault.WriteSidecarAtomic | crates/vault/src/vault.rs:212-220 | writing beside and renaming over, tied to the machine function whose images are characterised below |
| VaultCore.Vault.Connect | crates/vault/src/store.rs:44-71 | opening with a key: a wrong key is told from an I/O failure |
| VaultCore.Vault.Create | crates/vault/src/vault.rs:56-81 | `create` with its rollback, in place, equal to the machine function for every plan of failures |
| VaultCore.Vault.Open | crates/vault/src/vault.rs:90-106 | `open`, in place, equal to the machine function |
| VaultCore.Vault.Change | crates/vault/src/vault.rs:146-178 | `change_passphrase` with its rekey and rollback rekey, including the key the connection ends up with, in place; when it succeeds is `VaultAnswers.SucceedsExactly` |
| Host.Computer.Do | crates/vault/src/store.rs:44-182 | one effect on the machine in place: what changes, what a failure leaves, what a stop leaves |
| VaultRuns.OpensExactly | crates/vault/src/vault.rs:90-106 | for every disk and every passphrase, what `open` answers is decided by the contents, and opening changes nothing but a database never initialised, which the first passphrase claims |
| VaultRuns.WriteSidecarImages | crates/vault/src/vault.rs:212-220 | every image shows the old sidecar or, after success only, the new one |
| VaultRuns.ResealImages | crates/vault/src/vault.rs:163-177 | between `rekey` and the rename every image has the old sidecar and the same entries under one of the two keys |
| VaultRuns.ResealOutcome | crates/vault/src/vault.rs:163-177 | key and sidecar end up both old or both new, exactly unless the plan strands them |
| VaultRuns.CreateIsAtomic | crates/vault/src/vault.rs:56-81 | at every image `create` has happened entirely or not at all |
| VaultRuns.ChangeIsAtomic | crates/vault/src/vault.rs:128-178 | `change_passphrase` is atomic at every image outside its window, and what a stranded one leaves |
| VaultRuns.CallIsAtomic | crates/vault/src/vault.rs:56-178 | every call, under every plan, takes full effect or none, and its reply tells which; a stranded change of passphrase never succeeds and leaves the vault lost, or changed should the new salt be the old one |
| VaultRuns.LostExactlyWhenStranded | crates/vault/src/vault.rs:128-178 | after a change of passphrase an open vault is lost if and only if it was before, or the change was stranded and its key is not the one the old sidecar gives the new passphrase |
| VaultRuns.ChangeIsAllOrNothing | crates/vault/src/vault.rs:128-178 | with at most one failing step: Ok means exactly the new passphrase opens, Err exactly the old one, entries identical |
| VaultRuns.RunIsSafe | crates/vault/src/vault.rs:56-178 | at every point of every run a sidecar on disk has an initialised database beside it |
| VaultRuns.RunIsAccountedFor | crates/vault/src/vault.rs:56-178 | after any run, whatever fails, the contents are those the replies account for, crashes and stranded changes included |
| VaultRuns.LossTakesAStrandedChange | crates/vault/src/vault.rs:146-178 | a run loses a vault only through a stranded change of the passphrase of an open vault |
| VaultRuns.RunStaysInStep | crates/vault/src/vault.rs:56-178 | every image of every run belongs to some event, and shows the vault which the replies so far account for, the one that very event means, or, for a change of passphrase, its own window |
| VaultRuns.RunFromBlank | crates/vault/src/vault.rs:56-178 | safety, accounting and step-by-step explanation of every image from an empty disk |
| VaultRuns.OrphanExactly | crates/vault/src/vault.rs:68-81 | the plans for which a failed `create` leaves its database file, if and only if |
| VaultRuns.OrphanBlocksForever | crates/vault/src/vault.rs:57-60 | a concrete such run, after which no `create` and no `open` succeeds |
| VaultAnswers.SucceedsExactly | crates/vault/src/vault.rs:56-178 | every call, under every plan, succeeds if and only if it is in order (right passphrases, eight characters, an open vault, nothing in the way) and all of its effects work |
| VaultAnswers.ChangeHandsOver | crates/vault/src/vault.rs:146-178 | after a change of passphrase that is in order and undisturbed the new passphrase opens the vault, no other one does, and its entries are the same |
| VaultAnswers.HandleFollowsReply | crates/vault/src/vault.rs:56-178 | whether there is an open handle after a call is decided by its reply |
| VaultAnswers.FirstFaultIsReported | crates/vault/src/vault.rs:56-178 | a call in order that does not succeed answers `Io` or `Sql` after the access that failed first, unless the process died of it or of undoing it |
| VaultAnswers.OpenRefusesExactly | crates/vault/src/vault.rs:90-106 | from the raw files, which of its four refusals an undisturbed `open` gives, each if and only if |
| VaultAnswers.CallIsPlain | crates/vault/src/vault.rs:56-178 | one undisturbed call does to the files what it does to a plain vault, with the same reply, refusals included |
| VaultAnswers.RunIsPlain | crates/vault/src/vault.rs:56-178 | so does any run of them: the files and handles refine the plain vault, reply by reply |
| IdentityCore.Identity.Create | crates/identity/src/identity.rs:94-142 | `create` over both stores with its rollback, in place, equal to the machine function |
| IdentityCore.Identity.Load | crates/identity/src/identity.rs:156-178 | `load` with its seed and key checks, in place |
| IdentityCore.Identity.Remove | crates/identity/src/identity.rs:187-202 | `delete` on both stores, the keychain being tried even when the vault failed, in place; what it achieves and answers is `IdentityRuns.DeleteAnswersExactly` |
| IdentityCore.Identity.List | crates/identity/src/identity.rs:210-223 | an answer holds every described identity once, in key order; when nothing fails there is one exactly if all descriptions parse |
| IdentityRuns.SlotsAreInjective | crates/identity/src/identity.rs:257-281 | no entry of one name is an entry of another, whatever characters names contain |
| IdentityRuns.CreateSucceedsExactly | crates/identity/src/identity.rs:94-142 | an undisturbed `create` succeeds if and only if neither store knows the name |
| IdentityRuns.LoadSucceedsExactly | crates/identity/src/identity.rs:156-178 | the answer of an undisturbed `load`, case by case, from what the two stores hold, the checks of length and key spelled out |
| IdentityRuns.StoreBothOutcome | crates/identity/src/identity.rs:115-141 | both halves stored on success; on failure no cached key, the keychain as before or with the seed left in, and the description there exactly if its write was reached and worked |
| IdentityRuns.CreateThenLoad | crates/identity/src/identity.rs:94-178 | whatever was disturbed, an identity that was created loads back with the same key and metadata |
| IdentityRuns.FailedCreate | crates/identity/src/identity.rs:128-141 | after a failed `create` a retry goes through if and only if the keychain was restored |
| IdentityRuns.SeedLeftBehindExactly | crates/identity/src/identity.rs:115-141 | the seed of a failed `create` stays in the keychain exactly for these plans |
| IdentityRuns.CallFollows | crates/identity/src/identity.rs:94-202 | at every image of every call other names are untouched and no cached key stands alone |
| IdentityRuns.RunKeepsConsistent | crates/identity/src/identity.rs:94-281 | any run over any names keeps every name consistent at every image |
| IdentityRuns.RunLeavesOthers | crates/identity/src/identity.rs:94-281 | a run that never mentions a name leaves it as it was |
| IdentityRuns.DeleteEntries | crates/identity/src/identity.rs:187-202 | which of the two vault entries `delete` removes, for every plan |
| IdentityRuns.DeleteAnswersExactly | crates/identity/src/identity.rs:187-202 | `delete` succeeds if and only if its three effects work; the vault's error takes precedence; the seed goes if and only if the keychain, tried whatever the vault said, is reached and works |
| IdentityRuns.DeleteOutcome | crates/identity/src/identity.rs:187-202 | after a successful `delete` loading answers NotFound and creating succeeds; after a failed one the seed is gone if and only if there was none or the keychain was reached and worked |
| IdentityRuns.FailedCreateStaysListed | crates/identity/src/identity.rs:119-141 | after a failed `create` on a free name the listing shows its description if and only if the first four effects worked, and it can be loaded if and only if the seed stayed too |
| IdentityRuns.MismatchMeansIncomplete | crates/identity/src/identity.rs:156-178 | KeyMismatch only for a name whose creation was never completed |
| IdentityRuns.MismatchArisesExactly | crates/identity/src/identity.rs:94-202 | a call leaves a description and a seed that do not belong together if and only if it is a `create` that finds another description and leaves its seed alone |
| IdentityRuns.MismatchWithoutSubstitution | crates/identity/src/identity.rs:156-178 | two failed creations are enough to produce it |
| IdentityAnswers.CreateAnswersExactly | crates/identity/src/identity.rs:94-142 | under every plan `create` succeeds if and only if the name is free and its five effects work; its identity has this name, key, time and label, and both stores hold it |
| IdentityAnswers.CreateRefusesExactly | crates/identity/src/identity.rs:94-142 | which error a failing `create` gives: name taken, keychain or vault, if and only if |
| IdentityAnswers.LoadAnswersExactly | crates/identity/src/identity.rs:156-178 | under every plan `load` gives an identity if and only if both reads work and the stores hold its two halves |
| IdentityAnswers.LoadReportsFaults | crates/identity/src/identity.rs:156-178 | a `load` that cannot read the vault or the keychain says which |
| Boot.NamesAreDistinct | src/security.rs:84-134 | instances share an identity name only if their fingerprints collide, and never the passphrase account |
| Boot.SecurityStack.BootPassphrase | src/security.rs:195-223 | reads or draws the boot passphrase, in place |
| Boot.SecurityStack.Start | src/security.rs:93-159 | the whole start composed from the three stages, in place, equal to the machine function |
| BootRuns.SuccessAnchors | src/security.rs:93-159 | after a successful start the passphrase held opens the vault and both halves of the identity agree |
| BootRuns.LaterStartsChangeNothing | src/security.rs:91-159 | from then on no start changes anything, whatever fails; a successful one returns the same identity |
| BootRuns.StartFrame | src/security.rs:122-134 | in the shared keychain a start touches its own name only, and the passphrase only when there was none |
| BootRuns.StartsAreIdempotent | src/security.rs:91-159 | over any run of starts of any instances and other uses of the vaults: same identity, exactly the entries written |
| BootBlocks.StartSucceedsExactly | src/security.rs:93-159 | whatever is on the machine, an undisturbed start succeeds if and only if it is in a bootable state |
| BootBlocks.NeverStartsExactly | src/security.rs:93-159 | for every machine: no number of starts, whatever fails and is drawn in them, ever succeeds if and only if no single undisturbed one would |
| BootBlocks.BlockedExactly | src/security.rs:93-223 | that state spelled out: the passphrase entry, the vault, the identity |
| BootBlocks.UnbootableStays | src/security.rs:93-159 | a blocked instance stays blocked through any start, whatever fails in it |
| BootBlocks.StartBlocksExactly | src/security.rs:93-159 | from every state that is not blocked and for every plan and draws, a start leaves a blocked one if and only if its passphrase is stored or found and does not fit, or the later stages orphan the vault or leave a seed that belongs to no description |
| BootBlocks.RetriesExactly | src/security.rs:93-159 | after a start that would have succeeded undisturbed the next one succeeds, if and only if the plan was not such a one; interrupted retries included |
| BootBlocks.FirstStartRetriesExactly | src/security.rs:93-159 | the case of a first start: it blocks if and only if the plan orphans the vault or leaves the seed alone in the keychain |
| BootBlocks.InterruptedRetryBlocks | src/security.rs:137-153 | a retry that dies right after its seed went in, beside the description of an earlier start, blocks for ever |
| BootBlocks.BlockedForever | src/security.rs:93-159 | from a blocked state every attempt fails and leaves a blocked state |
| BootBlocks.OneCrashBlocks | src/security.rs:137-153 | the shortest such first start: a single stop, right after the seed went into the keychain |
| BootAnswers.StartAnswersExactly | src/security.rs:93-159 | under every plan a start succeeds if and only if the machine is bootable and all of its effects work; it returns the identity on record, or a new one with the drawn seed, the time and the companion's label |
| BootAnswers.StartSeals | src/security.rs:93-223 | the passphrase a successful start leaves in charge is the one it found or its own draw in hex; it is in the keychain and opens the vault |
| BootAnswers.StartRefusesExactly | src/security.rs:93-159 | which stage an undisturbed start fails in, and when for a wrong passphrase or a foreign seed, each if and only if |
| BootAnswers.PassphraseReportsExactly | src/security.rs:195-223 | the two errors of the passphrase stage, under every plan, if and only if |
| BootRace.AgreementIsFinalExactly | src/security.rs:195-223 | with starts interleaved on the passphrase entry, an instance keeps agreeing with the keychain whatever the others do, if and only if none of them has found the entry empty and yet to store |
| BootRace.StillAgreesExactly | src/security.rs:195-223 | it agrees later if and only if nobody stored since |
| BootRace.StepsAreTheStage | src/security.rs:195-223 | the two accesses left alone are the passphrase stage |
| BootRace.DisagreementBlocks | src/security.rs:93-159 | an instance with a sealed vault and a sound identity is blocked if and only if it no longer agrees |
| Session.ParsesExactly | crates/auth/src/session.rs:46-77 | the headers that parse are exactly those assembled from a colon-free 64-character key, a number and a 128-character signature |
| Session.ParsePrint | crates/auth/src/session.rs:46-87 | printing and parsing gives a header back if and only if it is well formed |
| Session.PrintParse | crates/auth/src/session.rs:46-87 | every accepted spelling prints to one that parses to the same header |
| Session.CanonicalMessageInjective | crates/auth/src/session.rs:96-100 | two requests share their message if and only if key, timestamp and body hash agree |
| Session.CanonicalMessageReads | crates/auth/src/session.rs:96-100 | the message splits back into key, timestamp and hex hash of the body, in this order |
| Session.WindowExactly | crates/auth/src/session.rs:118-122 | what the wrapped window check accepts, over all timestamps, and that it is the intended one without overflow |
| Session.SignatureCoversRequest | crates/auth/src/session.rs:96-134 | an accepted signature is accepted for no other timestamp and no other body, up to a hash collision |
| Devices.DeviceKeyInjective | crates/auth/src/store.rs:25-30 | two devices never share a vault key |
| Devices.DeviceStore.Add | crates/auth/src/store.rs:45-65 | adds a device or says why not, nothing else changing |
| Devices.DeviceStore.Touch | crates/auth/src/store.rs:85-96 | refreshes `last_seen_at`, silently doing nothing on any failure |
| Devices.DeviceStore.List | crates/auth/src/store.rs:109-122 | every device on record exactly once, by pairing time then key, and when there is an answer |
| Pairing.PairingTokenStore.Create | crates/auth/src/pairing.rs:61-75 | the new table: the live tokens and the new one, in place; how long it lives is `AuthAnswers.TokenLivesExactly` |
| Pairing.PairingTokenStore.Consume | crates/auth/src/pairing.rs:83-117 | succeeds if and only if the token is known and unexpired, then it is gone; the expired answer never occurs |
| AuthServiceCore.AuthService.Complete | crates/auth/src/service.rs:72-84 | pairing in place: consume, then add |
| AuthServiceCore.AuthService.Verify | crates/auth/src/service.rs:99-115 | verification in place, in the order of the code's checks |
| AuthServiceCore.OnRecordExactly | crates/auth/src/service.rs:72-129 | after any history a device is on record if and only if it was paired and not revoked since |
| AuthServiceCore.AcceptedExactly | crates/auth/src/service.rs:87-115 | a request is accepted if and only if its device was paired and not revoked since, it is fresh and its signature verifies |
| AuthServiceCore.VerifyTouchesOnlyLastSeen | crates/auth/src/service.rs:99-115 | verifying changes at most the `last_seen_at` of the signer, and only on acceptance |
| AuthServiceCore.HistoryIsSane | crates/auth/src/store.rs:45-105 | after any history every entry is a device filed under its own key, which listing relies on |
| AuthServiceCore.TimesAreOrdered | crates/auth/src/store.rs:45-96 | with a clock that never goes back: paired, then last seen, then now |
| AuthAnswers.TokenLivesExactly | crates/auth/src/pairing.rs:61-117 | a token issued at t0 pairs at t if and only if t is before t0 plus its lifetime, ten minutes when none is given or it does not fit; what happens when the sum does not fit |
| AuthAnswers.TokensExactly | crates/auth/src/pairing.rs:61-117 | after any history a token is in the table if and only if it was issued and neither presented nor collected since |
| AuthAnswers.PairsExactly | crates/auth/src/service.rs:72-84 | after any history a pairing succeeds if and only if its token stands, its key is not paired and the vault works; which refusal otherwise, and the device and tokens it leaves |
| AuthAnswers.RefusedExactly | crates/auth/src/service.rs:99-115 | after any history, which refusal a request gets: unreadable vault, unknown device, stale, bad signature, each if and only if |
| AuthAnswers.IllegibleIsReported | crates/auth/src/store.rs:68-79 | a device entry that does not parse is an error of its own |
| AuthAnswers.RevokedIsRefused | crates/auth/src/service.rs:123-129 | after a revocation the device is refused as unknown whatever it signs, and every other one is served as before |
| AuthAnswers.PairedIsAccepted | crates/auth/src/service.rs:72-115 | a device just paired is accepted at once on a fresh request whose signature verifies |
| PairingRace.RunKeepsInv | crates/auth/src/pairing.rs:61-117 | the invariant of tokens, grants and devices over every interleaving |
| PairingRace.IssueIsIssueToken | crates/auth/src/service.rs:57-60 | issuing in one step is the whole call |
| PairingRace.PairingIsCompletePairing | crates/auth/src/service.rs:72-84 | consuming, checking and storing without interruption is the whole call, and a device is stored if and only if it succeeds |
| PairingRace.TouchingIsTouchLastSeen | crates/auth/src/store.rs:85-96 | reading and writing back without interruption is the refresh that verification ends with |
| PairingRace.RevokeIsRevokeDevice | crates/auth/src/service.rs:127-129 | revoking in one step is the whole call |
| PairingRace.RestartIsANewService | crates/auth/src/pairing.rs:51-58 | a restart forgets the tokens and keeps the devices |
| PairingRace.EveryDeviceWasPaidFor | crates/auth/src/service.rs:72-84 | every stored key was introduced by its own pairing with an issued, unexpired token; none pays twice; pairings never exceed tokens |
| PairingRace.GoneStaysGone | crates/auth/src/store.rs:85-105 | a key with no handler in flight comes back only through a new pairing |
| PairingRace.RevocationIsFinalExactly | crates/auth/src/store.rs:85-105 | a revocation is final if and only if no handler was in the middle of writing that device |
| Pinning.CalculerResume | src/pinning.rs:115-124 | the one-pass summary equals the full-scan definition, wrap-around included |
| Pinning.SumSizesRemove | src/pinning.rs:115-124 | the total does not depend on the order of the scan |
| Pinning.PinTracker.Load | src/pinning.rs:134-147 | loading reads the two files or their defaults and establishes the cached summary |
| Pinning.PinTracker.ReplacePolicy | src/pinning.rs:153-157 | replaces the policy and its file, keeping the summary right |
| Pinning.PinTracker.Insert | src/pinning.rs:218-223 | the new table and file, with the summary recomputed |
| Pinning.PinTracker.Drop | src/pinning.rs:225-233 | removes one record and returns it, writing only if there was one |
| Pinning.PinTracker.UpdateSizes | src/pinning.rs:199-215 | all measurements at once, the number of changes, one recomputation and one write only if something changed |
| Pinning.PinTracker.Totals | src/pinning.rs:163-192 | the cached totals are those of a scan |
| Pinning.PinTracker.ExpiredCids | src/pinning.rs:236-243 | exactly the expired contents, once each |
| Pinning.OperationsMean | src/pinning.rs:153-233 | what each operation makes of the policy and of each record |
| Pinning.LastMeasureWins | src/pinning.rs:199-215 | of several measurements of one record the last one wins, and nothing else of it changes |
| Pinning.ChangesAreReal | src/pinning.rs:199-215 | the number of changes returned is the number of measurements that differ from the table |
| Pinning.DefaultsExactly | src/pinning.rs:60-80 | without readable files: no record, and every module may pin a hundred megabytes for seven days |
| Pinning.RestartRestores | src/pinning.rs:134-260 | after any run with working writes a restart finds the same table and policy, each record under its own identifier |
| Pinning.OperationSurvivesExactly | src/pinning.rs:153-260 | for every operation and every fate of its write, when a restart finds what it did, if and only if |
| Pinning.FileSurvivesExactly | src/pinning.rs:153-260 | for every state, operation and fate, what each file is worth afterwards: decided anew by a write, as before without one |
| Pinning.LastWriteDecides | src/pinning.rs:153-260 | over runs with any failures, the last write of each file decides what a restart finds |
| Pinning.ExpiredExactly | src/pinning.rs:236-243 | what the wrapping comparison means for every record |
| Pinning.RequestedExpiryNeverWraps | src/main.rs:284-285 | records built by a pin request expire at exactly the intended second |
| Janitor.InterpreterStat | src/pinning.rs:367-386 | held only with an explicit size, absent only with an explicit absence |
| Janitor.TailleDetenue | src/pinning.rs:321-338 | no answer, or an unreadable one, is neither held nor absent |
| Janitor.PostPin | src/main.rs:272-351 | each reply exactly when, nothing recorded otherwise; the record's lifetime is the request's or that of the module's rule, its size the explicit one of kubo or zero, and 200 means it is positive |
| Janitor.DeletePin | src/main.rs:353-366 | the record goes whatever kubo says, and the reply tells whether there was one |
| Janitor.ExpiryPass | src/pinning.rs:402-413 | a record is there afterwards if and only if it was and had not expired or kubo, asked, refused to unpin it; remaining ones are unchanged; the file follows if its writes work |
| Janitor.ChooseBatch | src/pinning.rs:422-428 | five hundred unmeasured records, or all there are |
| Janitor.MeasureAll | src/pinning.rs:437-444 | the collected measurements turn the table into the re-measured one |
| Janitor.RemeasurePass | src/pinning.rs:421-449 | one pass measures a full batch and changes nothing else; the file follows if its write works |
| PinRuns.PassMeasures | src/pinning.rs:421-449 | a pass moves exactly the answered records of its batch from unmeasured to held |
| PinRuns.RemeasureConverges | src/pinning.rs:393-449 | k passes leave max(0, z - 500k) records at zero and hold all the others, each with the size kubo gave and otherwise unchanged |
| PinRuns.RunKeepsInv | src/pinning.rs:353-449 | the invariant of the registry and kubo's reports over every interleaving of requests, deletions and janitor |
| PinRuns.AccessesAreOperations | src/pinning.rs:199-233 | every access of the interleaved machine to the table is an operation of the tracker |
| PinRuns.UninterruptedRequest | src/main.rs:272-351 | asking and recording without interruption records what the handler records |
| PinRuns.UninterruptedPass | src/pinning.rs:421-449 | asking about some records and applying the answers without interruption is the re-measuring of those records |
| PinRuns.HeldIsProven | src/main.rs:305-366 | every positive size was reported by kubo for that content, so the held count counts proven contents only |
| DiskWalk.TailleDossier | src/stockage.rs:45-69 | the walk counts exactly the entries met before the limit stops it, and terminates on every tree |
| DiskWalk.OrderSumsToTree | src/stockage.rs:45-69 | the entries met in stack order sum to the recursive totals of the tree |
| DiskWalk.OrderMeetsAll | src/stockage.rs:45-69 | the walk meets as many entries as the tree has below the folders, none of them broken |
| DiskWalk.MeasureIsHonest | src/stockage.rs:45-69 | not cut off: both totals exact; cut off: exactly the limit and a lower bound; more files than the limit always cut off |
| DiskWalk.MarkExactly | src/stockage.rs:52-55 | the mark is set if and only if some entry, of any kind, comes once the limit has been reached |
| DiskWalk.MarkDependsOnOrder | src/stockage.rs:52-55 | with exactly as many files as the limit, the mark depends on the order of the listing |
| Tiles.ParseRange | src/tiles.rs:324-353 | accepted bounds lie in the file, first not after last |
| Tiles.PrintedRangeMeans | src/tiles.rs:324-353 | a printed range is accepted if and only if its numbers fit 64 bits and it selects something, and the bounds are exactly what it selects |
| Tiles.AcceptedExactly | src/tiles.rs:324-353 | a header is accepted with these bounds if and only if it spells, blanks, plus signs and leading zeros included, a range that selects exactly them |
| Tiles.SpelledRangeParses | src/tiles.rs:324-353 | whatever the spelling of a range, the answer is its clamped form |
| Tiles.SeveralRangesServeAll | src/tiles.rs:319-328 | a list of ranges is never served in part |
| Tiles.ServedNamesStayInside | src/tiles.rs:224-232 | a served name is one plain component of the folder |
| Tiles.ServedNamesExactly | src/tiles.rs:224-232 | which names are served: no separator, no two dots in a row, one of the two endings, if and only if |
| Tiles.EmpreinteExactly | src/tiles.rs:152-160 | two fingerprints are equal if and only if size and time are |
| Tiles.PresentsExactly | src/tiles.rs:262-273 | a browser presenting one or several kept fingerprints presents the current one if and only if it kept it |
| Tiles.PresentsAnEntry | src/tiles.rs:262-267 | a header presents a fingerprint if and only if one of its comma-separated entries, blanks aside, is it |
| Tiles.LirePlage | src/tiles.rs:235-242 | the bytes of the inclusive bounds, or failure exactly when the file ends before |
| Tiles.GetTileArchive | src/tiles.rs:245-314 | refusal, absence, revalidation, part, whole or error, in the order of the code; which bytes go out for which header is `Tiles.AnswersExactly` |
| Tiles.AnswersExactly | src/tiles.rs:275-313 | from the range header to the bytes: a client gets the part its header spells if that selects something, otherwise the whole file; error or absence exactly when the file has shrunk or gone |
| Tiles.PartServedExactly | src/tiles.rs:275-313 | on an unchanged file these bounds are served if and only if the header spells a range selecting exactly them, and the whole file if and only if it spells none |
| Tiles.ServedIsFaithful | src/tiles.rs:245-314 | on an unchanged file every reply carries the bytes it announces, only unsafe names are refused, and nothing is sent exactly to those who presented the current fingerprint |
| Tiles.BlocksRebuildExactly | src/tiles.rs:281-313 | asking the handler for blocks of any size rebuilds the file, if and only if the last block's end fits 64 bits or it is the first |
| Stream.HandleSocket | src/stream.rs:63-119 | the loop over events, with its early returns, equal to the state after the whole history |
| Stream.DataIsTheChanges | src/stream.rs:63-119 | the client receives exactly the changes among the snapshots of the enabled ticks |
| Stream.ClientIsCurrent | src/stream.rs:63-105 | after an enabled tick the last snapshot shown is the current one, and two in a row differ |
| Stream.HashMustTell | src/stream.rs:64-91 | a snapshot hashing to zero or to the last hash is not sent: the condition on the hash is needed |
| Stream.CurrentExactlyWhenToldApart | src/stream.rs:63-105 | the client is current after every smooth history over given snapshots if and only if the hash tells them apart and from zero |
| Stream.OnePausePerStretch | src/stream.rs:63-105 | one `paused` frame for each maximal stretch of disabled ticks |
| Stream.SendsExactly | src/stream.rs:63-119 | after any smooth history, exactly what the next event sends: `paused` at the start of a stretch, a snapshot that differs from the last one found, the payload of a ping, else nothing |
| Stream.ResumeIsSilentExactly | src/stream.rs:63-105 | resuming sends nothing if and only if the snapshot did not change during the pause |
| Stream.EndsExactly | src/stream.rs:63-119 | a connection ends if and only if the client closes, reception fails, or a send that is due fails |
| Stream.UnencodedIsSkipped | src/stream.rs:85-100 | a snapshot that could not be serialised counts as shown |
| Stream.DeliveredIsAPrefix | src/stream.rs:63-119 | whatever send fails, what was delivered is a prefix of the ideal stream |
| SwarmKeys.FromHexExactly | src/ipfs_private.rs:66-80 | accepted are 64 hex digits between blanks, giving the key whose own form is those digits in lower case, if and only if |
| SwarmKeys.HexRoundTrip | src/ipfs_private.rs:66-80 | a key's hex form reads back as the key |
| SwarmKeys.ParsesWhatMatters | src/ipfs_private.rs:139-149 | only the start of the first line and the third line of a key file matter |
| SwarmKeys.ParsesExactly | src/ipfs_private.rs:139-149 | a file is read as this key if and only if it has three lines, the first begins like a key file and the third spells the key |
| SwarmKeys.FileLines | src/ipfs_private.rs:85-92 | the three lines of a written key file |
| SwarmKeys.FileRoundTrip | src/ipfs_private.rs:85-149 | a key's file reads back as the key |
| SwarmKeys.Repo.WriteSwarmKey | src/ipfs_private.rs:153-165 | the key file changes only when the last step works |
| SwarmKeys.Repo.DeleteSwarmKey | src/ipfs_private.rs:169-175 | deletion, fine with no file there |
| SwarmKeys.ReadGivesTheExpected | src/ipfs_private.rs:133-181 | after any run of complete, failed or interrupted writes and deletions, reading gives the last key written and not erased, and private mode agrees |
| Text.SplitOnceUnique | crates/auth/src/session.rs:46-77 | a string assembled around a separator splits back at it |
| Text.ParsePrintI64 | crates/auth/src/session.rs:46-87 | every signed 64-bit number prints to a string that parses to it |
| Text.ParsePrintU64 | src/tiles.rs:336-347 | a printed number parses back if and only if it fits 64 bits |
| Text.ParseU64Exactly | src/tiles.rs:336-347 | what parses as an unsigned number: digits, leading zeros included, with or without a plus sign, in range, if and only if |
| Text.ParseI64Exactly | crates/auth/src/session.rs:58-60 | what parses as a signed number: an optional sign, digits, in range, if and only if |
| Text.PrintNatIsShortest | crates/auth/src/session.rs:96-100 | no number is printed with a leading zero |
| Text.TrimTakes | src/tiles.rs:325-331 | trimming takes the blanks off both ends and nothing else |
| Text.ContainsExactly | src/tiles.rs:225-227 | a string contains another if and only if it is something, the other and something |
| Hex.DecodeEncode | src/ipfs_private.rs:66-80 | hex encoding decodes back |
| Hex.EncodeDecode | src/ipfs_private.rs:66-80 | decoding forgets the case and nothing else |

## Left out

- AuthServiceCore.AcceptedExactly: each call is one step with one clock reading; the code reads the clock once per check, and the interleaved accesses are the subject of `PairingRace`.
- AuthServiceCore.AuthService.ListDevices: requires every device to be filed under its own key, which `HistoryIsSane` proves of every history; foreign writes into the `auth` namespace are not modelled.
- Pinning.RestartRestores: the two files are written whole, torn or not at all; what serde makes of a hand-edited `pins.json` is not modelled.
- PinRuns.RemeasureConverges: for passes with no concurrent call and all contents held; with permanently absent ones only `AbsentBatchStalls` is stated.
- Janitor.ExpiryPass: a pass in isolation; a record pinned again between the scan and its removal is removed as well.
- Tiles.GetTileArchive: content types, cache lifetimes and the entity tag repeated in replies are not modelled.
- Stream.HandleSocket: serialising the `paused` frame cannot fail; the interval and the handshake are not modelled.
- DiskWalk.TailleDossier: the tree does not change during the walk, and a listing does not fail for ever.
- BootRuns.StartsAreIdempotent: a moved directory is given by its name, collisions of the eight-digit fingerprint being excluded by `DistinctNames`; starts of several instances follow each other, their race for the boot passphrase being the subject of `BootRace`.
- Failure of `create_dir_all` before a vault or swarm-key write leaves everything unchanged and is modelled for the swarm key only.
- Mutex poisoning: the code panics on it.
- Constant-time comparison, zeroisation, file permissions, log lines and timings.
- The cryptography itself, SQL, JSON syntax and Unicode trimming.
- `clear_ns`, `count_ns`, `list_namespaces`, the namespace handle and generic HTTP access to the vault: maps with no protocol on top.
- The catalogue of tile archives; the five-minute cache of disk measures.
- HTTP routing, the relay and kubo processes and clients, menus, dialogues, autostart and bandwidth.
