# Verified models of a sync-and-VPN password manager

This project models the protocols and state machines of a password manager with multi-device sync,
its sync server and its cloud VPN controller, in Dafny 4.11, and proves properties of the models.
`dafny verify dfyconfig.toml` checks everything; there is nothing to install besides Dafny.

| file | what it models |
|---|---|
| `VaultStore.dfy` | the local item and tombstone tables and the merge of a remote document |
| `VaultSync.dfy` | N devices, one compare-and-set server (If-Match, section 13.1.1 of RFC 9110), a network that delays, loses and repeats requests |
| `SettingsSync.dfy`, `SettingsFleet.dfy`, `SettingsSettling.dfy` | one device-settings step in place, any number of devices taking turns, and when they stop rewriting the shared item |
| `KeyCustody.dfy` | where the vault key lives, with a crash possible between any two effects |
| `RefreshTokens.dfy`, `Accounts.dfy`, `Lockout.dfy`, `Transfers.dfy`, `RateLimit.dfy` | the server's session, account, lockout, relay and rate-limit state |
| `MultiHop.dfy`, `AlwaysOn.dfy` | provisioning a chain of nodes, and the always-on node's record against the cloud |
| `FleetBans.dfy`, `Allowlist.dfy` | the ban planner and its passes, and the allowlist file |
| `Base32.dfy`, `Totp.dfy` | the streaming base32 coder and one-time codes |

## How the models are built

- Code that updates state is a class or a method whose `ensures` ties the new state to a function of
  the old one; the lemmas about runs use that function.
- Server handlers are one atomic step. The handlers that read and then write without a guard in the
  write also have a statement-level form that shows when the claim fails
  (`VaultSync.UpdateCoherentIff`, `RefreshTokens.LateRotationIff`, `Transfers.RacingUploads`,
  `Transfers.RacingDownloads`, `Lockout.RacingCodes`); account resolution is modelled atomically only.
- Clocks, random keys, network answers, keychain and file outcomes are parameters: every claim holds
  for all of them.
- A sealed blob is the document together with the version it was sealed for; opening it for another
  version fails. The keyed hash of one-time codes is any function to at least twenty bytes.
- Integers are unbounded. The 32-bit accumulator of base32, the 64-bit counter of the server's
  one-time codes, division that rounds toward zero and the overflow of 10^digits are written out.

## What turned out not to hold

Each of these is a lemma: a concrete failure or an exact condition.

- A deletion does not reach other devices through the sync cycle: the merge revives a locally deleted
  item from any live remote copy and forgets remote tombstones it has no row for
  (`DeletionsNeverPropagate`, `MergeKeepsLocalIff`; `DeletionTravelsIff` says which do). So "at least as new, item by item" fails for
  tombstones (`AcceptedPutDropsTombstone`) and, through a lagging clock, for live items edited between
  merge and snapshot; `PushAsNewIff` and `PushKeepsLiveIff` are the exact conditions.
- Pushing without merging first forgets items (`BlindPushForgets`). A blob stored for the wrong version
  blocks the cycle for good (`StuckForever`).
- A refused keychain write lets a stale token overwrite the shared one (`TokenSurvivesIff`) and erases
  the always-on node's key from the shared item (`NodeKeySurvivesIff`). Clearing a token on a device does
  not last (`ClearedValueReturns`), although a comment promises it does.
- Two rounds are not enough to share settings when a device's copy is ahead of the server's
  (`TwoRoundsNotEnough`); three are, if in the first no device with nothing to add meets a tie (`ThreeRoundsConverge`). Two devices whose
  copies carry the same stamp never converge (`TiesNeverConverge`), and seeding in the same second is
  enough for that (`SeedsInOneSecondDeadlock`).
- Two devices that pin one server differently, or hold different always-on nodes, rewrite the item for
  ever (`SettlesIff`); so may a blank pin entry (`BlankPinNeverSettles`). `SettledIff` is the condition
  for any fleet.
- A restored key goes into the session before the keychain; if the keychain refuses it, later saves
  are lost (`RestoreThenSaveIff`). Signing in with the master password can leave neither a wrapper nor a
  key, although a comment says it never does (`EscrowThenSaveIff`). Pairing installs an escrow it has
  not opened and does not look for a wrapper (`PairThenSaveIff`). The
  Windows replace and the native-messaging host have their own conditions
  (`WindowsChangeDurableIff`, `HostSaveDurableIff`).
- The relay's quota bounds live transfers only: nothing removes the ciphertext of expired ones
  (`StoredBytesUnbounded`).
- The always-on record is written in place and a delete error counts as "gone" when its text contains
  `404`, so a node can become invisible in five ways, listed exactly in `DeployHides`. One is a create
  call that takes effect while its reply is lost; one is a delete whose transport error quotes a path
  with 404 among the digits of the node's identifier (`PathMisread`).
- An allowlist entry with white space around it passes validation but is not read back, and a line
  feed in it loses every entry after it (`RoundTripIff`, `LineFeedDropsRest`).
- The rate limiter reads the clock before it takes its lock. A call that is overtaken by one with a later
  reading may be allowed one hit too many (`LateCallAdmitted`); `WindowSeenIff` says for any run exactly
  when a call sees its whole window.
- The two one-time-code verifiers differ at second zero (`CopiesAgree`), a code with zero digits asked
  for has one (`CodeShape`), and beyond nine digits a build without overflow checks shows a wrong number
  for some digests (`WrappedCodeIff`).
- Checks that race: many one-time codes read before the first is counted are all evaluated
  (`RacingCodes`), two downloads can both get a delete-on-download file (`RacingDownloads`), and a
  rotation that finishes after a logout gives the device a live token again (`LateRotationRevives`).

## Model

| member | source | states |
|---|---|---|
| VaultStore.LocalVault.Upsert | crates/core/src/vault/store.rs:48-61 | Replaces the row and clears the id's tombstone. |
| VaultStore.LocalVault.Delete | crates/core/src/vault/store.rs:87-96 | Removes the row and records the tombstone. |
| VaultStore.LocalVault.Merge | crates/core/src/vault/store.rs:126-173 | The streaming merge over the two tables equals the fold of the document, and the report counts each kind of item as it is reached. |
| VaultStore.LocalVault.MergeRemoteItem | crates/core/src/vault/store.rs:129-153 | One item: absent is added, strictly newer replaces, older is a conflict, equal is nothing, with the counts. |
| VaultStore.ReportCountsIds | crates/core/src/vault/store.rs:126-153 | Over a snapshot the report counts exactly the ids that were missing, behind and ahead on this side before the merge. |
| VaultStore.LocalVault.MergeRemoteItems | crates/core/src/vault/store.rs:129-153 | The item loop: strictly newer replaces, absent is added, older is a conflict, with the counts. |
| VaultStore.LocalVault.MergeRemoteTombstones | crates/core/src/vault/store.rs:155-170 | The tombstone loop: deletes rows no newer than the tombstone and counts them. |
| VaultStore.LocalVault.ToDocument | crates/core/src/vault/store.rs:106-122 | The snapshot lists every row and tombstone exactly once and nothing else. |
| VaultStore.MergeSnapshot | crates/core/src/vault/store.rs:126-173 | Merging any listing of a vault acts on every id by one fixed rule for local and remote entry, and keeps items and tombstones disjoint. |
| VaultStore.MergedIsJoined | crates/core/src/vault/store.rs:126-173 | The order-dependent fold computes the order-free join of the two vaults. |
| VaultStore.MergeIgnoresOrder | crates/core/src/vault/store.rs:126-173 | Two listings of the same remote vault merge to the same result. |
| VaultStore.MergeIdempotent | crates/core/src/vault/store.rs:126-173 | Merging the same remote entry twice is merging it once. |
| VaultStore.MergeKeepsRemoteIff | crates/core/src/vault/store.rs:155-169 | The result is at least as new as the remote entry, if and only if that is not a tombstone the device has no row for or an older tombstone of. |
| VaultStore.MergeKeepsLocalIff | crates/core/src/vault/store.rs:140-143 | The result is at least as new as the local entry, if and only if that is not a deletion newer than a live remote copy. |
| VaultStore.MergeCommutesIff | crates/core/src/vault/store.rs:126-173 | Exactly when two devices that merge each other's entry end up with the same one. |
| VaultSync.PutAppends | services/api/src/routes.rs:736-775 | The handler's compare-and-set appends to the history of blobs exactly when If-Match names its length, and otherwise reports that length. |
| VaultSync.VaultServer.Put | services/api/src/routes.rs:717-775 | The handler in place: row, reply and history for a first store, an update and a conflict; a blob sealed for its version keeps the history coherent. |
| VaultSync.AbsorbOk | apps/desktop/src-tauri/src/sync.rs:1096-1104 | A response from any past version of the row decodes, and after the merge the device keeps every live item of it. |
| VaultSync.EditKeeps | apps/desktop/src-tauri/src/commands.rs:548-747 | A save or deletion stamped no lower than what it replaces keeps the merged document's items. |
| VaultSync.StepKeepsInv | apps/desktop/src-tauri/src/sync.rs:780-808 | Every step of the protocol, including the conflict, refetch and retry path, keeps: history sealed in order, every request in flight sealed for its If-Match and at least as new as the document it names. Stamps matter only for edits between merge and snapshot. |
| VaultSync.RunKeepsInv | apps/desktop/src-tauri/src/sync.rs:1090-1119 | That invariant holds in every state of every interleaving of any number of devices. |
| VaultSync.VersionCoherence | services/api/src/routes.rs:717-775 | In every state of every run, however edits are stamped, the stored blob opens at the stored version, and so does every response a device holds. |
| VaultSync.NoLostUpdate | apps/desktop/src-tauri/src/sync.rs:780-808 | Every accepted PUT raises the version by one and keeps every live item of the replaced document, at least as new, if no edit between a merge and its snapshot is stamped below what it replaces. |
| VaultSync.DeletionsNeverPropagate | apps/desktop/src-tauri/src/sync.rs:1096-1111 | In every run whose deletions fall outside the gap between merge and snapshot, an item once live on the server stays live for ever. |
| VaultSync.DeletionTravelsIff | apps/desktop/src-tauri/src/sync.rs:1096-1111 | An item live on the server is gone from a pushed document if and only if the last edit of it between merge and snapshot was a deletion. |
| VaultSync.BlindPushForgets | apps/desktop/src-tauri/src/sync.rs:1063-1064 | A push without a merge is accepted and forgets any item the device lacks. |
| VaultSync.TieReplacesContent | crates/core/src/vault/store.rs:148-151 | Two edits with the same stamp: the merge keeps the local one, which then replaces the other's content. |
| VaultSync.PushKeepsLiveIff | apps/desktop/src-tauri/src/commands.rs:548-747 | For any vaults and any edits between merge and snapshot: the pushed document keeps the server's live items if and only if each of them that was edited was last stamped no lower than the server's. |
| VaultSync.PushAsNewIff | crates/core/src/vault/store.rs:126-173 | The same for every id, tombstones included: also each tombstone left alone must meet a row, or a tombstone no older, on the device. |
| VaultSync.JoinAsNewIff | crates/core/src/vault/store.rs:155-169 | The merge of two vaults is at least as new as the remote one if and only if every remote tombstone meets a row or a tombstone no older. |
| VaultSync.AcceptedPutAsNewIff | apps/desktop/src-tauri/src/sync.rs:780-808 | From any state with coherent versions, fetching the current row, first or after a conflict, merging, editing and sending yields an accepted request, and it loses nothing if and only if those conditions hold. |
| VaultSync.AcceptedPutDropsTombstone | crates/core/src/vault/store.rs:155-169 | A device that never had an item pushes, and the server accepts, a document without the server's tombstone for it. |
| VaultSync.StuckForever | apps/desktop/src-tauri/src/sync.rs:1096-1097 | Once the row holds a blob sealed for another version, no run of the cycle, with any edits, ever replaces it. |
| VaultSync.UpdateCoherentIff | services/api/src/routes.rs:736-771 | Between SELECT and UPDATE: the row stays openable if and only if no other UPDATE ran in between. |
| VaultSync.RacingPutsBreakCoherence | services/api/src/routes.rs:736-771 | Two PUTs that both pass the check leave a blob nobody can open. |
| VaultSync.PushDocument | apps/desktop/src-tauri/src/sync.rs:780-808 | The retry loop in place, with any PUTs of other devices before and between its requests: it succeeds exactly when nobody got in before the first request, or nobody between the refetch and the second; the vault is then untouched, or has the refetched document merged in, and its snapshot, sealed for the returned version, is what is stored. |
| VaultSync.PushOnce | apps/desktop/src-tauri/src/sync.rs:786-805 | One round: stored exactly when nobody got in before; otherwise the current row is merged into the vault, which loses nothing of its own. |
| VaultSync.PushOutcomeKeeps | apps/desktop/src-tauri/src/sync.rs:780-808 | A call on a vault that has its starting document merged in keeps every live item of the document it replaces, on either request. |
| VaultSync.RetryPath | apps/desktop/src-tauri/src/sync.rs:793-803 | A device whose first request meets a conflict comes back holding the current row with an attempt left. |
| VaultSync.AttemptsRunOut | apps/desktop/src-tauri/src/sync.rs:786-807 | After two attempts nothing more is sent. |
| VaultSync.FetchHolds | services/api/src/routes.rs:694-710 | A fetch leaves the device holding the version and blob it was answered with. |
| VaultSync.StepTouches | apps/desktop/src-tauri/src/sync.rs:1090-1119 | A step touches only its own device, only a delivery the history, and a vault changes only by an edit or a merge. |
| VaultSync.PullAndMerge | apps/desktop/src-tauri/src/sync.rs:795-803 | The refetch after a conflict opens, merges, and leaves a vault that keeps the server's items. |
| SettingsSync.DeviceStore.AdoptTokens | apps/desktop/src-tauri/src/sync.rs:2018-2082 | Overwrite fields: the device ends with the incoming value wherever neither the keychain nor the value's own check refused it. |
| SettingsSync.DeviceStore.MergeNetdata | apps/desktop/src-tauri/src/servers.rs:759-767 | The config loop: incoming entries win, other local entries stay. |
| SettingsSync.DeviceStore.MergePrefs | apps/desktop/src-tauri/src/commands.rs:1087-1111 | The preference loop: incoming keys win except device-local ones, and telemetry ends off. |
| SettingsSync.DeviceStore.MergePins | apps/desktop/src-tauri/src/servers.rs:628-650 | The pin loop: a pinned fingerprint stays, the install hint is or-ed, and the map is saved only when something changed. |
| SettingsSync.DeviceStore.ImportNode | apps/desktop/src-tauri/src/vpn.rs:1817-1830 | The always-on node is seeded only where none is known, the record before its key, and a refused key leaves the record without one. |
| SettingsSync.DeviceStore.WriteItem | apps/desktop/src-tauri/src/sync.rs:2139-2204 | A rewrite fills unset fields from the existing item and is stamped above it. |
| SettingsSync.DeviceStore.ApplyItem | apps/desktop/src-tauri/src/sync.rs:2017-2087 | The apply loop in place: all field classes, the item untouched. |
| SettingsSync.DeviceStore.SyncDeviceSettings | apps/desktop/src-tauri/src/sync.rs:1990-2137 | The whole step in place equals the step function; it reports a change exactly when the item changed. |
| SettingsSync.StepForm | apps/desktop/src-tauri/src/sync.rs:1990-2204 | Seeding and healing are one rule: the item afterwards is the device's export over the old item, and it changes only to a strictly newer stamp. |
| SettingsSync.StepShares | apps/desktop/src-tauri/src/sync.rs:1990-2137 | After a step device and item agree on every overwrite and incoming-wins field: the old item laid over the device's values. |
| SettingsSync.StepAgreesIff | apps/desktop/src-tauri/src/sync.rs:1990-2137 | After a step the item is exactly what the device exports, if and only if it is not a device without pins meeting an item with only blank ones. |
| SettingsSync.StepAgrees | apps/desktop/src-tauri/src/sync.rs:1990-2137 | Without blank pins: the item is the device's export, pins joined and node kept. |
| SettingsSync.NodeKeySurvivesIff | apps/desktop/src-tauri/src/vpn.rs:1804-1830 | The shared always-on key survives a device's step if and only if that device got both record and key, or no record. |
| SettingsSync.StepIdempotent | apps/desktop/src-tauri/src/sync.rs:1990-2137 | A second step writes nothing and changes nothing but the telemetry key of a settings file that lacked it. |
| SettingsSync.StepNonDestructive | apps/desktop/src-tauri/src/sync.rs:2150-2176 | No set field is cleared, no token of the item replaced, no fingerprint or device-local key lost, and every write is strictly newer. |
| SettingsSync.DeviceLocalPrefsStay | apps/desktop/src-tauri/src/commands.rs:1099-1103 | Whatever an item carries, the device's own device-local preferences are neither set, changed nor removed. |
| SettingsSync.TelemetryEndsOff | apps/desktop/src-tauri/src/commands.rs:1087-1105 | Any incoming preferences leave telemetry off; none leave the file alone. |
| SettingsSync.TokenSurvivesIff | apps/desktop/src-tauri/src/sync.rs:2003-2030 | With refused keychain writes, a shared token survives the step if and only if its write went through or the device had no other value. |
| SettingsSync.ClearedValueReturns | apps/desktop/src-tauri/src/sync.rs:2018-2030 | A token cleared, or a node forgotten, on one device comes back with the next step. |
| SettingsFleet.TurnOnServerItem | apps/desktop/src-tauri/src/sync.rs:1090-1119 | In a fleet whose copies the server knows, a turn works on the server's item and replaces it only by a newer one. |
| SettingsFleet.ForwardIff | crates/core/src/vault/store.rs:140-151 | In any fleet, a turn leaves the server's item or replaces it by a strictly newer one if and only if it does not meet a tied item with nothing to add to its own. |
| SettingsFleet.UntiedTurn | crates/core/src/vault/store.rs:140-151 | Such a turn leaves the device's copy known to the server, and every copy that was. |
| SettingsFleet.SharedFieldsConverge | apps/desktop/src-tauri/src/sync.rs:1990-2204 | For any number of devices and any local values, if no copy is ahead of the server's, after two rounds all devices and the item agree on tokens, Netdata map and preferences, and no later turn changes them. |
| SettingsFleet.RoundReachesCoherent | apps/desktop/src-tauri/src/sync.rs:2216-2231 | From any fleet, with copies however far ahead, one round in which no device with nothing to add meets a tie leaves every copy known to the server. |
| SettingsFleet.ThreeRoundsConverge | apps/desktop/src-tauri/src/sync.rs:1990-2231 | From any fleet three rounds converge, for good, if the first is such a round. |
| SettingsFleet.ClocksAheadMeetNoTie | apps/desktop/src-tauri/src/sync.rs:2177-2178 | No tie is met if the items in play have different stamps and every clock reads above all of them. |
| SettingsFleet.TwoRoundsNotEnough | apps/desktop/src-tauri/src/sync.rs:2216-2231 | With one copy ahead, two rounds leave a device without another's token, whatever the two tokens are. |
| SettingsFleet.TiesNeverConverge | crates/core/src/vault/store.rs:148-151 | Two devices at rest on tied copies keep their own items and tokens through any number of turns, and the server holds whichever went last. |
| SettingsFleet.SeedsInOneSecondDeadlock | apps/desktop/src-tauri/src/sync.rs:2120-2128 | Two devices that seed different settings in the same second are in that state. |
| SettingsSettling.SettledIff | apps/desktop/src-tauri/src/sync.rs:2098-2119 | For any fleet: no later turn ever changes the item if and only if no copy is ahead of it or tied with it and each device, after applying it, exports nothing the item lacks. |
| SettingsSettling.OneRoundSettles | apps/desktop/src-tauri/src/servers.rs:628-650 | If no two devices disagree on a pin or a node after a round, no later turn writes. |
| SettingsSettling.DisagreementRewrites | apps/desktop/src-tauri/src/servers.rs:628-650 | Any stretch in which two devices that disagree both take a turn contains a rewrite of the item. |
| SettingsSettling.SettlesIff | apps/desktop/src-tauri/src/servers.rs:628-650 | Without blank pins and whatever the item said: after a round the item is settled if and only if no two devices then hold different fingerprints for a server or different nodes. |
| SettingsSettling.AnyFleetSettlesIff | apps/desktop/src-tauri/src/sync.rs:2216-2231 | The same from a fleet with copies ahead, after a first round in which no device with nothing to add meets a tie. |
| SettingsSettling.SettlesFromStartIff | apps/desktop/src-tauri/src/servers.rs:628-650 | From an item that contradicts no device, agreement of the devices before the round decides. |
| SettingsSettling.BlankPinNeverSettles | apps/desktop/src-tauri/src/servers.rs:735-746 | A blank pin entry on one device, beside another device with other pins, is written and dropped on every lap, for ever. |
| SettingsSettling.BlankTugUnsettled | apps/desktop/src-tauri/src/servers.rs:628-650 | Such a fleet fails the general condition. |
| SettingsSettling.BlankPinSettles | apps/desktop/src-tauri/src/servers.rs:628-650 | A blank pin beside devices without pins meets it: the item is settled. |
| KeyCustody.CommandKeepsCustodyIff | apps/desktop/src-tauri/src/applock.rs:135-202 | From a safe device, every cut of a command leaves every stored envelope under the key the next unlock produces, and its end is safe, if and only if it is no adoption whose key ends up in no such place. |
| KeyCustody.CustodyOverRuns | apps/desktop/src-tauri/src/applock.rs:135-202 | Over every run of commands and crashes whose adoptions meet that condition the key is in the wrapper under a chosen password or, without a wrapper, in the keychain. |
| KeyCustody.BadAdoptionLosesCustody | apps/desktop/src-tauri/src/sync.rs:1531-1539 | Any adoption that does not meet it loses custody at some crash or with the next item saved. |
| KeyCustody.AlwaysReopensIff | apps/desktop/src-tauri/src/applock.rs:153-165 | From a safe state, the wrapper's password or a plain start gives a session that opens the envelopes, if and only if there is a wrapper or the keychain can be read. |
| KeyCustody.UnlockOpensIff | apps/desktop/src-tauri/src/applock.rs:153-165 | A locked device opens if and only if the password is the wrapper's and the code is right; a refused attempt changes nothing. |
| KeyCustody.BootOpensIff | apps/desktop/src-tauri/src/state.rs:41-70 | A start opens the device if and only if nothing gates it and the keychain yields or takes a key; a key is minted only where a readable keychain has none. |
| KeyCustody.ReunlockOpensIff | apps/desktop/src-tauri/src/commands.rs:156-167 | The platform unlock opens it if and only if there is no master password and the keychain holds a readable key. |
| KeyCustody.SessionCommands | apps/desktop/src-tauri/src/commands.rs:141-150 | Locking closes the session only; a save seals under the session's key; deleting the last item leaves nothing sealed. |
| KeyCustody.AdoptionOpensIff | apps/desktop/src-tauri/src/sync.rs:1508-1533 | An adoption does nothing on a device with items and otherwise leaves it unlocked with the adopted key. |
| KeyCustody.AdoptionLeaves | apps/desktop/src-tauri/src/sync.rs:1531-1540 | Where each adoption leaves wrapper and keychain, and whether it gets as far as pulling the items. |
| KeyCustody.RestoreThenSaveIff | apps/desktop/src-tauri/src/sync.rs:1531-1539 | Restore and a save: durable if and only if the key reached the keychain of a device without a wrapper, or was already the one in use. |
| KeyCustody.EscrowThenSaveIff | apps/desktop/src-tauri/src/sync.rs:1753-1765 | Signing in with the master password and a save: durable if and only if a wrapper there holds the same key, or the key reached a wrapper or the keychain, or was in it. |
| KeyCustody.PairThenSaveIff | apps/desktop/src-tauri/src/sync.rs:3204-3248 | Pairing and a save: durable if and only if a wrapper there holds the pairing code's key; or without one the key reached the keychain and no escrow of another key or an unknown password replaced it; or it was in the keychain. |
| KeyCustody.WindowsChangeDurableIff | apps/desktop/src-tauri/src/state.rs:117-133 | Remove-then-rename, with a rename that succeeds or fails, survives every crash and its own end if and only if it is refused before it writes, nothing is stored or the keychain still has the key. |
| KeyCustody.HostSaveDurableIff | apps/desktop/src-tauri/src/nmhost.rs:108-116 | An item saved by the native-messaging host stays reachable if and only if there is no wrapper or the key it found or minted is the wrapper's. |
| KeyCustody.KeyStore.LoadOrCreateKey | apps/desktop/src-tauri/src/state.rs:208-232 | The keychain key, minted and stored only where none was; none when the keychain cannot be read or refuses the store. |
| KeyCustody.KeyStore.BootUp | apps/desktop/src-tauri/src/state.rs:41-70 | Start-up in place: locked behind a wrapper or another gate, otherwise unlocked with the keychain key. |
| KeyCustody.KeyStore.AuthSetPassword | apps/desktop/src-tauri/src/applock.rs:135-149 | Succeeds exactly for four bytes or more on a device without a wrapper when all its writes go through; then the wrapper holds the key under the new password and the keychain none. |
| KeyCustody.KeyStore.AuthUnlockPassword | apps/desktop/src-tauri/src/applock.rs:153-165 | Succeeds exactly for the wrapper's password and the right code, and otherwise changes nothing. |
| KeyCustody.KeyStore.AuthChangePassword | apps/desktop/src-tauri/src/applock.rs:168-184 | Succeeds exactly for the old password, the right code, a long enough new one and an accepted write; then the same key is wrapped under the new one, otherwise nothing changes. |
| KeyCustody.KeyStore.AuthRemovePassword | apps/desktop/src-tauri/src/applock.rs:189-202 | Succeeds exactly for the password, the right code and both writes accepted; the key is in the keychain before the wrapper goes, and a wrong password changes nothing. |
| KeyCustody.KeyStore.AdoptFromEscrow | apps/desktop/src-tauri/src/sync.rs:1597-1640 | Adoption on an empty device with the password protection it installs, effect by effect. |
| RefreshTokens.StepKeepsInv | services/api/src/routes.rs:588-678 | Every handler keeps: each token has at most one child, a token with a child is revoked, tokens belong to their device's account, and a live token's device is approved. |
| RefreshTokens.OtherTokensUntouched | services/api/src/routes.rs:645-678 | No step changes a token of a device other than the one it names or that of the token shown, and none changes anything but `revoked`. |
| RefreshTokens.RevokedExactly | services/api/src/routes.rs:645-678 | Exactly which tokens a step revokes: the one an accepted refresh shows, and all of the device's at a replay, a logout or a revocation by an approved device. |
| RefreshTokens.StatusesExactly | services/api/src/routes.rs:988-1029 | Exactly which device a step approves or revokes, and for whom. |
| RefreshTokens.AddedExactly | services/api/src/routes.rs:588-614 | Exactly which rows a step adds: pending or approved devices, and one live token, good for thirty days, with its parent. |
| RefreshTokens.HonouredUntilExpiry | services/api/src/routes.rs:658-661 | In every later state a token is honoured if and only if it is live and not past the expiry it was minted with. |
| RefreshTokens.OneLiveTokenPerChain | services/api/src/routes.rs:620-669 | In every reachable state a chain of rotations has at most one live token, and its device is approved. |
| RefreshTokens.ReplayEndsSession | services/api/src/routes.rs:645-658 | Presenting a revoked token is refused, leaves its device no live token, and no token existing then is ever honoured again in any continuation. |
| RefreshTokens.TokenWorksOnce | services/api/src/routes.rs:620-669 | A token once honoured is refused at every later presentation, which then ends every session of the device. |
| RefreshTokens.LateRotationIff | services/api/src/routes.rs:636-669 | Between SELECT and UPDATE: a rotation finished late keeps the invariant if and only if the token has no child yet and its device is still approved. |
| RefreshTokens.LateRotationRevives | services/api/src/routes.rs:636-678 | A rotation that finishes after a logout keeps the invariant and gives the device a live token again. |
| RefreshTokens.RacingRefreshesFork | services/api/src/routes.rs:636-669 | Two refreshes that both read first fork the chain into two live tokens. |
| RefreshTokens.SessionStore.AuthRefresh | services/api/src/routes.rs:620-669 | The handler in place: unknown, revoked, expired and live token, accepted exactly when live and unexpired. |
| RefreshTokens.SessionStore.MintSession | services/api/src/routes.rs:588-614 | One new token for the device's account, thirty days, with the given parent. |
| RefreshTokens.SessionStore.TrustedSignIn | services/api/src/routes.rs:564-573 | If the request is granted, a new approved device with one live token; otherwise nothing. |
| RefreshTokens.SessionStore.TotpVerify | services/api/src/routes.rs:412-427 | Exactly when the code check accepts, the device becomes approved and gets a live token, even if it had been revoked. |
| RefreshTokens.SessionStore.AuthLogout | services/api/src/routes.rs:671-678 | No live token of the device remains. |
| RefreshTokens.SessionStore.DeviceApprove | services/api/src/routes.rs:990-1008 | Only an approved device of the same account approves another; tokens are untouched. |
| RefreshTokens.SessionStore.DeviceRevoke | services/api/src/routes.rs:1011-1029 | An approved caller leaves the device no live token; its status changes only within the caller's account. |
| Accounts.RunKeepsInv | services/api/src/routes.rs:116-142 | Every run of sign-ins keeps subjects unique and at most one account flagged as bootstrap owner. |
| Accounts.BootstrapAccountStable | services/api/src/routes.rs:203-243 | Once a bootstrap sign-in returned an account, all later ones return the same, under any mix of Google sign-ins and from any starting table. |
| Accounts.OneAccountIff | services/api/src/routes.rs:113-142 | A fresh server has at most one account if and only if at most one Google identity ever signed in. |
| Accounts.ResolveTouches | services/api/src/routes.rs:116-142 | A sign-in touches no account but the one it returns, and leaves that with exactly the subject, address and flag it should have. |
| Accounts.NewAccountIff | services/api/src/routes.rs:203-243 | Exactly when a sign-in opens a new account. |
| Accounts.SyntheticAccount | services/api/src/routes.rs:228-238 | The account a bootstrap sign-in makes is the synthetic one, the owner exactly on an empty server. |
| Accounts.AccountStore.AuthGoogle | services/api/src/routes.rs:116-142 | Re-keys the lone synthetic account, otherwise finds or adds the subject; the account returned carries it. |
| Accounts.AccountStore.AuthBootstrap | services/api/src/routes.rs:203-243 | Flagged account, lone account, synthetic account, in that order, and the result is settled for good. |
| Lockout.LockoutTable.CheckTotpCode | services/api/src/routes.rs:348-394 | The check in place: locked, not enrolled, wrong and right code, with the row each leaves. |
| Lockout.RowCountsWrongs | services/api/src/routes.rs:376-386 | The row counts exactly the wrong codes since the last success and is locked fifteen minutes past the latest from the fifth on. |
| Lockout.LockoutBound | services/api/src/routes.rs:348-394 | Between successes, k evaluated wrong codes take at least k - 5 quarter hours, with any traffic of other accounts in between. |
| Lockout.BoundIsTight | services/api/src/routes.rs:376-386 | For every k a run reaches that bound. |
| Lockout.LockedExactly | services/api/src/routes.rs:350-361 | An attempt is refused as locked if and only if at least five wrong codes precede it and the latest is under fifteen minutes old; then nothing changes, even for the right code. |
| Lockout.OutcomesExactly | services/api/src/routes.rs:348-394 | Over any run, exactly when an attempt is locked out, not enrolled, accepted or wrong. |
| Lockout.CountsExactly | services/api/src/routes.rs:374-393 | What an attempt does to every account's count of wrong codes. |
| Lockout.RacingCodes | services/api/src/routes.rs:350-386 | Any number of wrong codes that read the row before the first is counted are all evaluated; the count still comes out right. |
| Lockout.WrongRunEvaluates | services/api/src/routes.rs:348-394 | One after the other, of any number of wrong codes at one instant only five are evaluated. |
| Transfers.QuotaHolds | services/api/src/routes.rs:1315-1328 | In every reachable state and at every later time an account's unexpired transfers total at most 250 MiB. |
| Transfers.FilesBounded | services/api/src/routes.rs:1296-1301 | Every stored file has between one byte and 25 MiB. |
| Transfers.CreateIff | services/api/src/routes.rs:1296-1353 | Exactly when an upload is accepted, and the row it makes, with the term asked for clamped to a day and a year. |
| Transfers.DownloadIff | services/api/src/routes.rs:1429-1451 | A file is handed out to its sender and its recipients while it is there and in its term, and to nobody else; who else asks is refused or told there is none. |
| Transfers.DownloadLeaves | services/api/src/routes.rs:1439-1469 | What a download does to the row, and that it touches no other. |
| Transfers.DeleteIff | services/api/src/routes.rs:1477-1496 | A file is deleted for its sender and its recipients and for nobody else. |
| Transfers.ListMarks | services/api/src/routes.rs:1369-1377 | Listing marks exactly the account's files past their term that are not permanent. |
| Transfers.OtherAccountsApart | services/api/src/routes.rs:1315-1323 | No request of one account changes what another has used. |
| Transfers.ExpiredIsTerminal | services/api/src/routes.rs:1369-1377 | A row once expired or deleted is never handed out again in any run. |
| Transfers.NeverServedLate | services/api/src/routes.rs:1439-1446 | A file with a term is not handed out after it, whether or not anything had marked it. |
| Transfers.HandedOutOnce | services/api/src/routes.rs:1452-1469 | A delete-on-download file goes to at most one device other than its sender; afterwards nobody gets it. |
| Transfers.StoredBytesUnbounded | services/api/src/routes.rs:1315-1328 | One upload every two days is always accepted and all of them stay stored, so the stored bytes have no bound. |
| Transfers.RacingUploads | services/api/src/routes.rs:1315-1353 | Two uploads both checked before either is inserted stay in the quota if and only if they fit together. |
| Transfers.SecondUploadRefused | services/api/src/routes.rs:1324-1328 | One after the other, the second of two uploads that do not fit together is refused and changes nothing. |
| Transfers.AnswerIsHandle | services/api/src/routes.rs:1429-1451 | The handler's answer depends only on the row its SELECT read. |
| Transfers.RacingDownloads | services/api/src/routes.rs:1429-1459 | With any requests handled between one download's SELECT and its DELETE, a second SELECT in between is served too if and only if none of them took the file away; one after the DELETE never is. |
| Transfers.TransferStore.TransferCreate | services/api/src/routes.rs:1278-1353 | The upload handler in place with all its refusals. |
| Transfers.TransferStore.TransferList | services/api/src/routes.rs:1369-1392 | Marks the overdue and lists, newest first, exactly the visible transfers the device may handle, none of them overdue. |
| Transfers.TransferStore.TransferDownload | services/api/src/routes.rs:1424-1475 | The download handler in place: not found, lazily expired, forbidden, sender's fetch, consumed, delivered. |
| Transfers.TransferStore.TransferDelete | services/api/src/routes.rs:1477-1496 | Deletes only for a party of the transfer, and then the row is gone. |
| RateLimit.RateLimiter.Check | services/api/src/ratelimit.rs:28-39 | Prune, compare, push, on one key's list. |
| RateLimit.PrunedListIsWindow | services/api/src/ratelimit.rs:28-39 | In every run whose calls on a key take the lock in the order of their clock readings, and whose windows do not grow, the pruned list is the accepted hits inside the window, taken from the full history. |
| RateLimit.WindowSeenIff | services/api/src/ratelimit.rs:28-39 | Over any run, whatever order the clock is read in and however windows change: a call sees at most the accepted hits of its window, and all of them if and only if no earlier call pruned one. |
| RateLimit.OwnIsLog | services/api/src/ratelimit.rs:28-39 | In an ordered run the limiter accepts exactly what a reference that never forgets accepts. |
| RateLimit.LimiterRefinesLog | services/api/src/ratelimit.rs:28-39 | There it refuses a call exactly when `max` accepted hits of the full history lie in the window. |
| RateLimit.LimiterKeepsWindow | services/api/src/ratelimit.rs:33-38 | Its list after the call is those hits and, if it allowed the call, the new one. |
| RateLimit.AcceptedHitsSpread | services/api/src/ratelimit.rs:26-39 | With fixed maximum and window, `max + 1` hits accepted by the reference never fit into less than the window. |
| RateLimit.AllowedHitsSpread | services/api/src/ratelimit.rs:26-39 | The same of the hits the limiter itself allows. |
| RateLimit.KeysIndependent | services/api/src/ratelimit.rs:31-32 | What a key's callers see does not depend on any other key's calls. |
| RateLimit.LateCallAdmitted | services/api/src/ratelimit.rs:29-33 | For any window: a hit, one at least a window later, then a call that had read the clock inside the first one's window are all allowed with a maximum of two. |
| MultiHop.Controller.MultihopRun | apps/desktop/src-tauri/src/vpn.rs:2300-2492 | Succeeds exactly when every hop and the tunnel come up; then the nodes are wired, created exit-first, stored entry-first, and the tunnel ends at the entry. On failure nothing is connected and every node the client was told of was passed to delete; the one node it may not know of is that of a first failing hop whose create reply was lost. |
| MultiHop.Controller.ProvisionChain | apps/desktop/src-tauri/src/vpn.rs:2347-2441 | The provisioning loop: all hops wired, or everything made so far passed to delete. |
| MultiHop.Controller.ProvisionHop | apps/desktop/src-tauri/src/vpn.rs:2353-2440 | One hop: on success it joins the wiring in front; on failure it and all earlier nodes are passed to delete. |
| MultiHop.Controller.DestroyChain | apps/desktop/src-tauri/src/vpn.rs:2496-2501 | One delete call per node, in order. |
| MultiHop.Controller.Disconnect | apps/desktop/src-tauri/src/vpn.rs:2504-2564 | Every node of a multi-hop connection is passed to delete, an always-on node is not, and no node made is forgotten. |
| MultiHop.NeighboursAgree | apps/desktop/src-tauri/src/vpn.rs:2356-2385 | Each hop forwards to the next one's key and address, that one admits exactly its link key and address, only the entry admits the client, no peer is admitted twice. |
| MultiHop.TrafficReachesExit | apps/desktop/src-tauri/src/vpn.rs:2353-2440 | Followed by keys and addresses alone, the client's traffic passes every hop once in order and leaves at the exit. |
| MultiHop.StrangersRefused | apps/desktop/src-tauri/src/vpn.rs:2356-2363 | Traffic under any other key is refused wherever it is sent. |
| AlwaysOn.HiddenIff | apps/desktop/src-tauri/src/vpn.rs:1958-2096 | For every command and every crash point: a running node of this device is without a record if and only if one of the listed accidents happened. |
| AlwaysOn.NeverHidden | apps/desktop/src-tauri/src/vpn.rs:1958-2206 | Over every run without such an accident, every node made, whether or not the client was told of it, is on record or gone. |
| AlwaysOn.AccidentHides | apps/desktop/src-tauri/src/vpn.rs:1958-2206 | Every run with one reaches a state with a hidden node. |
| AlwaysOn.NotFoundRecognised | apps/desktop/src-tauri/src/vpn.rs:2082-2093 | A genuine 404 is always taken as gone. |
| AlwaysOn.PathMisread | apps/desktop/src-tauri/src/vpn.rs:2088-2091 | A transport error quoting the path of a node whose identifier contains 404 is taken as gone though the node runs. |
| AlwaysOn.KeyAfterDeploy | apps/desktop/src-tauri/src/vpn.rs:1958-2074 | The tunnel key is kept after a deployment exactly when the node is, as far as the client knows, there to be reached. |
| AlwaysOn.KeyAfterDestroy | apps/desktop/src-tauri/src/vpn.rs:2151-2206 | Destroying drops the key exactly when nothing is recorded or the reply reads as gone. |
| AlwaysOn.KeyBeforeNode | apps/desktop/src-tauri/src/vpn.rs:1999-2016 | The key is stored before a node is made and is there at every cut before the last effect. |
| AlwaysOn.Controller.PersistentDeploy | apps/desktop/src-tauri/src/vpn.rs:1958-2074 | Deployment in place: guard, existing record, key before money, create told, lost or failed, record before boot, cleanup, address, tunnel. |
| AlwaysOn.Controller.CleanupFailedPersistent | apps/desktop/src-tauri/src/vpn.rs:2080-2096 | The record and key go only after a reply that reads as gone, and the record only if its removal succeeds. |
| AlwaysOn.Controller.PersistentDestroy | apps/desktop/src-tauri/src/vpn.rs:2151-2206 | Succeeds exactly when nothing was recorded or a reply reads as gone; the record goes only then, if its removal succeeds. |
| FleetBans.PlanFleetAdditions | apps/desktop/src-tauri/src/crowdsec.rs:820-844 | For any hash-map order each plan is the first hundred, in order, of the union's addresses the server lacks, with the union's durations. |
| FleetBans.FillUnion | apps/desktop/src-tauri/src/crowdsec.rs:822-829 | The nested loop computes the union of all servers' bans. |
| FleetBans.MissingFor | apps/desktop/src-tauri/src/crowdsec.rs:833-841 | Filter, sort and cut, from whatever order the keys come in. |
| FleetBans.UnionMeaning | apps/desktop/src-tauri/src/crowdsec.rs:822-829 | The union has exactly the banned addresses, each with the longest duration any server has and permanent when any says so. |
| FleetBans.PlanMeaning | apps/desktop/src-tauri/src/crowdsec.rs:833-841 | A plan holds the union's addresses the server lacks, in order, with the union's durations, a hundred at most, and leaves none out that comes before one taken. |
| FleetBans.LessIff | apps/desktop/src-tauri/src/crowdsec.rs:839-840 | The order is the dictionary's. |
| FleetBans.ListedDurations | apps/desktop/src-tauri/src/crowdsec.rs:916-925 | A permanent addition is listed with a hundred years, any other with the union's minutes. |
| FleetBans.PlanIgnoresOrder | apps/desktop/src-tauri/src/crowdsec.rs:820-844 | A plan depends only on which bans exist and which addresses the server has. |
| FleetBans.PassKeepsUnion | apps/desktop/src-tauri/src/crowdsec.rs:909-936 | Applying plans, whichever pushes succeed, changes neither the fleet's addresses nor permanence nor a temporary ban's duration. |
| FleetBans.PassShrinks | apps/desktop/src-tauri/src/crowdsec.rs:833-841 | A successful push shrinks a server's missing addresses by a hundred or to nothing. |
| FleetBans.MissingAfterPasses | apps/desktop/src-tauri/src/crowdsec.rs:909-936 | After any run of passes a hundred fewer are missing per successful push. |
| FleetBans.FleetConverges | apps/desktop/src-tauri/src/crowdsec.rs:820-844 | A server's plan is empty if and only if at least ceil(m/100) pushes to it succeeded, m being what it missed at the start. |
| Allowlist.WriteAllowlist | apps/desktop/src-tauri/src/crowdsec.rs:736-762 | Writes the file exactly when every entry is valid, otherwise names the first that is not. |
| Allowlist.WriteEntries | apps/desktop/src-tauri/src/crowdsec.rs:742-745 | The loop that writes one quoted line per entry. |
| Allowlist.AddressChars | apps/desktop/src-tauri/src/crowdsec.rs:532-541 | The characters an entry may hold, exactly. |
| Allowlist.ValidIff | apps/desktop/src-tauri/src/crowdsec.rs:532-548 | An entry is valid exactly when, white space aside, it has at most 43 such characters and is an address, or an address and a prefix length. |
| Allowlist.ParseAllowlist | apps/desktop/src-tauri/src/crowdsec.rs:1217-1237 | The line loop with its flag equals the fold of the lines. |
| Allowlist.ItemTolerated | apps/desktop/src-tauri/src/crowdsec.rs:1230-1234 | An item reads as its entry whatever dashes, quotes and white space are around it. |
| Allowlist.LineEffects | apps/desktop/src-tauri/src/crowdsec.rs:1222-1229 | Which lines open the list, keep it open and end it. |
| Allowlist.CarriageReturn | apps/desktop/src-tauri/src/crowdsec.rs:1220-1221 | A carriage return before the line feed belongs to the line's end. |
| Allowlist.CleanRoundTrip | apps/desktop/src-tauri/src/crowdsec.rs:1217-1237 | Any list of entries made of address characters is read back exactly, in order, without the private ranges. |
| Allowlist.RoundTripIff | apps/desktop/src-tauri/src/crowdsec.rs:736-762 | A list of accepted entries is read back if and only if none has white space around it. |
| Allowlist.LineFeedDropsRest | apps/desktop/src-tauri/src/crowdsec.rs:1222-1229 | An accepted entry ending in a line feed is read back without it and every later entry is lost. |
| Base32.Encode | crates/core/src/totp.rs:150-167 | The streaming encoder over an accumulator that loses its high bits equals the plain five-bit regrouping; the length is ceil(8n/5). |
| Base32.Drain | crates/core/src/totp.rs:158-161 | The inner loop writes out whole symbols until fewer than five bits are left. |
| Base32.ShiftIn | crates/core/src/totp.rs:156-157 | Shifting new bits into the wrapping accumulator sets the low bits and moves the others that fit. |
| Base32.LastQuint | services/api/src/auth.rs:165-167 | The leftover bits make one zero-padded symbol, and none when there are none. |
| Base32.Decode | crates/core/src/totp.rs:185-208 | The streaming decoder equals the eight-bit regrouping of the symbols, refusing foreign characters and texts without a whole byte. |
| Base32.AlphabetInverse | crates/core/src/totp.rs:192-196 | The decoder's table lookup inverts the encoder's for all 32 symbols. |
| Base32.InvalidIff | crates/core/src/totp.rs:190-196 | A text is refused as invalid exactly when it holds a character that is no symbol in either case, no padding and no white space. |
| Base32.DecodingIgnores | crates/core/src/totp.rs:190-191 | Padding and white space anywhere, and the case of letters, make no difference to the decoding. |
| Base32.DecodeUndoesEncode | crates/core/src/totp.rs:150-208 | Decoding undoes encoding on every non-empty byte string; the empty one is refused. |
| Base32.EncodeInjective | services/api/src/routes.rs:317-333 | Different byte strings have different encodings. |
| Totp.CodeShape | crates/core/src/totp.rs:83-93 | A code exists if and only if period > 0 and digits <= 9, or 31 in a build that wraps; it has exactly `digits` characters, one for zero, and spells the truncated digest modulo what 10^digits is in 32 bits. |
| Totp.TruncatedBits | crates/core/src/totp.rs:86-90 | Truncation reads the 31 bits after the top bit of the byte that the digest's last four bits name (section 5.3 of RFC 4226). |
| Totp.PrintedAscii | crates/core/src/totp.rs:92-92 | The characters of a code are the ASCII digits. |
| Totp.TypedCode | crates/core/src/totp.rs:104-104 | A code typed as its digits with any white space around it is what is compared. |
| Totp.WrappedCodeIff | crates/core/src/totp.rs:91-92 | That is the digest modulo 10^digits if and only if digits <= 9 or the digest lies below the wrapped modulus. |
| Totp.ConstantTimeEq | crates/core/src/totp.rs:138-147 | The accumulating comparison decides equality. |
| Totp.VerifyAt | crates/core/src/totp.rs:103-113 | Accepts exactly the trimmed codes of the current counter and one to each side, none below zero (section 5.2 of RFC 6238). |
| Totp.WindowIff | crates/core/src/totp.rs:105-108 | The counters accepted are exactly those of the times at most one period away. |
| Totp.ServerVerify | services/api/src/auth.rs:124-136 | The server's search over its own three counters. |
| Totp.CopiesAgree | services/api/src/auth.rs:107-136 | Client and server accept the same codes at every second from one on; at zero the server also takes the code of the last 64-bit counter. |
| Totp.CodeHoldsUntilRollover | crates/core/src/totp.rs:96-99 | The counter stays for every millisecond before the shown time has passed and advances by one when it has. |

## Left out

- VaultSync.NoLostUpdate: speaks of live items, and of runs without a lagging save between merge and snapshot, because it is false of the rest; `VaultSync.AcceptedPutAsNewIff` is the exact condition.
- SettingsFleet.SharedFieldsConverge: starts from a fleet whose copies the server knows, because two rounds do not suffice otherwise; `SettingsFleet.ThreeRoundsConverge` starts from any.
- SettingsSettling.DisagreementRewrites: starts from such a fleet too; every fleet is one after a round without a quiet tie.
- SettingsSync.DeviceStore.AdoptTokens: one dictionary stands for the tokens, the SSH key and the other overwrite fields.
- SettingsSync.DeviceStore.ImportNode: a tunnel key left in the keychain without any record is not modelled.
- KeyCustody.KeyStore.BootUp: after a keychain failure the program runs on a fresh vault in memory; here the device is then just without a session.
- RefreshTokens.SessionStore.TrustedSignIn: the bootstrap, password and enrolment handlers share it, with the outcome of their own checks as a parameter.
- VaultSync.PushOnce: the branch for a conflict without any stored row cannot be reached, because rows are never removed, and is not written out; the step model has it.
- MultiHop.Controller.ProvisionHop: the boot polling is one outcome per hop.
- FleetBans.PassKeepsUnion: bans do not run out between passes, and a server that cannot be read at all is left out of the fleet.
- Allowlist.WriteAllowlist: the parsing of addresses and prefix lengths is a parameter; every claim holds for any.
- Cryptography, HTTP, TLS pinning, OAuth, SSH sessions, WireGuard and firewall commands, and the user interface are not part of this model.
- The launch-time orphan sweep and the sweep before a connection: they may delete other ephemeral nodes beside the modelled commands.
- The Netdata credential field of the settings item, request rate limiting per endpoint, and automatic IP bans.
- Parsing of ban durations and of `otpauth` URIs, which would add easy members; the URI parser does not establish the bounds on period and digits that `Totp.CodeShape` needs.
