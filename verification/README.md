# A model of the Proxmox VE secrets engine

The engine issues short-lived Proxmox VE users from Vault and rotates its own provisioner
token. It keeps its books in Vault storage and changes the world on the Proxmox VE server;
there is no transaction over the two, so every handler is a sequence of small effects, and a
crash may fall between any two of them. A call to the server may fail before its effect or
after it. The model states what the order of those effects guarantees.

## How it is built

* **Rules and runs.** `RotationProtocol` and `IssuanceProtocol` define a `World` (only what
  survives a crash), its `Effect`s and `Allowed`, the condition on the world under which the
  engine makes an effect. A run is a legal sequence of effects. A crash is a run that stops:
  every prefix of a run is a run and may be taken up by any handler. The theorems are about
  all runs.
* **Handlers.** `RotationEngine.Engine` and `IssuanceEngine.Engine` hold the handlers in the
  branches and the order of the Go code, with a server and a storage that fail whenever they
  like. Each handler is proved to append only allowed effects to the run, so the theorems hold
  of it, and states what its own answer means. `calm` is the assumption that no call fails; it
  appears only in progress clauses ("without faults this succeeds"). Building a client from a
  config with an https address counts as such a call: it also parses the address and the CA
  certificate. `plain` is the further assumption that an absent token is never denied with "no
  such token" but left out of the list: a rotation and a guarded recovery need it to succeed, the
  rollback does not.
* **Locks.** Rotation and its recovery share one lock, so their `World` moves only by their
  own hands. Issuance has none: before each call `Others` lets other requests, sweeps,
  revocations and operators make any legal run.
* **Cache.** `ClientCache` steps any number of `getClient` callers and config writers from one
  lock operation to the next.
* **Leases.** `Leases.Lease` is one lease from issuance to revocation; `Lifetime` is its
  arithmetic.
* **Answers.** Every call on a user or a token list ends in an arbitrary response, which the
  handlers hear through the classification of `PveClient`; `Answers` says what is assumed of
  responses.
* **Values.** `Permissions`, `Suffix`, `UserId`, `TokenId`, `Text`, `PveClient` and `Roles`
  hold the algorithms the protocols rest on.

## Assumptions about the environment

* A storage operation is atomic: an error means no effect. WAL ids are never reused.
* A server call takes effect before it returns or never, and may take effect although it
  reports an error. In rotation no report of a token deletion is believed; only a later token
  list counts.
* A complete response of status 2xx, and a complete 400 or 500 that says "no such user", "no
  such token" or "already exists", tells the truth ("already exists" answers a creation that
  created nothing). In particular no proxy answers with a complete 2xx page: the client does not
  look at the body of a delete. Any other response, from the server or from a proxy, may say
  anything.
* Wrong credentials get no answer. Tokens are created without privilege separation and inherit
  what their user is granted.
* A drawn rotation suffix, and a drawn nonce, is not in use. Nothing is assumed of userids: a
  drawn one may repeat, and operators may create users under any name; what has to hold then is
  stated exactly by `IssuanceProtocol.ReuseSafeExactlyWhenFree` and
  `IssuanceProtocol.OutsiderSafeExactlyWhenFree`.
* Config writes take no rotation lock. They occur between rotation operations, also between a
  crash and its recovery, never inside one.
* The WAL sweep hands over entries of at least 300 seconds and drops an entry exactly when the
  rollback answered nil.
* A server call takes at most 30 seconds; a storage call takes at most a bound S with
  120 + 3 S < 300. A WAL entry bears the time at which its write began.
* Nobody alters the comment of an existing user or gives a new user the nonce of an attempt.
* Operators edit, create and delete the users of leases as they like, for `Leases.Lease` between
  the operations of the lease. An edit may lift the expiry of a user; the expiry is bounded again
  from the next successful renewal on.
* `framework.CalculateTTL` behaves as `Lifetime.CalculateTtl`: the increment, else the backend
  lifetime, else the system default, cut at the maximum counted from the start. One clock
  reading per request.

## What turned out otherwise

* Nonces protect the decision to delete, not the delete: a lease is revoked by name alone, and a
  rollback deletes by name after it has compared. A name that is taken while such a delete is
  owed loses its new user, be it an operator's or another lease's. `IssuanceProtocol.OutsiderLost`
  and `IssuanceProtocol.LeaseLost` give the runs from an empty installation (a revocation takes
  effect, its answer is lost, the name is taken, Vault retries);
  `IssuanceProtocol.OutsiderSafeExactlyWhenFree` and `IssuanceProtocol.ReuseSafeExactlyWhenFree`
  give the exact condition. In token mode the same may hand out a Secret for an operator's user:
  `IssuanceEngine.Engine.Issue` says when the user is the lease's own.
* `docs/ARCHITECTURE.md` suggests repeating the guarded recovery when both recorded tokens may
  be orphaned. The first successful recovery clears the record
  (`path_rotate_root.go:339-344`), so there is nothing to repeat: when the config names neither
  token the other one is forgotten. `RotationEngine.OperatorWriteMayForget` leads there through
  the handlers, `RotationEngine.Engine.Recover` has the exact condition.
* Error phrases are searched in the joined values of all fields, so a phrase may arise from
  fields of which none contains it: `PveClient.PhraseMaySpanFields` gives such a response,
  `PveClient.DeniedByNoFieldExactly` says exactly when.

## Model

| member | source | states |
|---|---|---|
| RotationProtocol.ConfiguredTokenSafe | path_rotate_root.go:119-227 | In every run of rotations, rollbacks, recoveries and crashes no delete names the token that is configured when it is sent, and without operator writes a configured token that works keeps working. |
| RotationProtocol.NoTokenForgotten | path_rotate_root.go:155-226 | At every moment of every run without operator writes, a live token a rotation ever named is configured or on record, and the record has its own WAL entry until its unused token is gone. |
| RotationProtocol.OnlyConfiguredSurvives | docs/ARCHITECTURE.md:609-622 | When nothing is pending, the configured token is the only live one of all that rotations ever named. |
| RotationProtocol.StaleWalIsolated | wal.go:122-141 | A WAL entry left by one rotation never matches the pending one, and every stored entry passes the well-formedness test of the rollback. |
| RotationProtocol.OwnOrOther | wal.go:139-141 | Comparing the two ids tells the pending rotation's own entry from all others, in both directions. |
| RotationProtocol.InvStep | path_rotate_root.go:145-157 | Every allowed effect, operator writes included, keeps the books: fresh WAL ids, distinct new tokens, a record that matches its entry. |
| RotationProtocol.CoveredStep | path_rotate_root.go:223-226 | Every engine effect keeps the coverage of all named tokens, from minting to clearing the books. |
| RotationProtocol.CrashAnywhere | docs/ARCHITECTURE.md:614-622 | Every prefix of a legal run is a legal run: a crash between any two effects leaves a state all theorems speak of. |
| RotationProtocol.RecoveryForgetsOther | path_rotate_root.go:306-344 | Where a working config names neither recorded token, guarded recovery of one leaves the other live, unused and on no record. |
| RotationEngine.ForgetsOther | path_rotate_root.go:306-344 | Wherever an engine run stops with a rotation pending: after a write of a complete, working and granted config that names neither recorded token, guarded recovery of either succeeds without faults, and the other one, if it was live, is left live, unused and on no record. |
| RotationEngine.ForgetsReplacement | path_rotate_root.go:306-344 | The same from an installation with two tokens and no roles, after a rotation that crashed when it had minted the replacement: the replacement is forgotten. |
| RotationEngine.OperatorWriteMayForget | docs/ARCHITECTURE.md:644-654 | A concrete installation in which that happens. |
| RotationEngine.Engine.RotateRoot | path_rotate_root.go:119-127 | Rotation or guarded recovery: keeps the configured token working and every token covered, changes nothing when it rejects, and succeeds without faults when its guards hold. |
| RotationEngine.Engine.Rotate | path_rotate_root.go:128-227 | The effects come in the one safe order; success means a working new token that holds every grant the engine and the stored roles need, its secret stored, the old one gone, books closed, and all eight effects made; a pending rotation or a wrong expectation changes nothing. |
| RotationEngine.Engine.Record | path_rotate_root.go:154-163 | The WAL entry is written before the record that names it, and both before anything else. |
| RotationEngine.Engine.Replace | path_rotate_root.go:165-199 | A replacement comes out only when the old token exists, the new one was minted for this rotation and it was validated; a failed validation is recorded. |
| RotationEngine.Engine.ValidateReplacement | path_rotate_root.go:237-282 | Accepts only a replacement that works, sees the old token and holds every privilege the engine and all stored roles need; accepts each such one when nothing fails. |
| RotationEngine.Engine.RolesAllocatable | path_rotate_root.go:268-280 | The loop over the listed roles accepts exactly the trees that allocate users in every stored role's realm, up to faults. |
| RotationEngine.Engine.Install | path_rotate_root.go:200-211 | The switch changes exactly the token id and secret of the config, to those of the live replacement. |
| RotationEngine.Engine.Retire | path_rotate_root.go:212-226 | Done means that a list confirmed the old token absent and only then the books were closed; the configured token works throughout. |
| RotationEngine.Engine.RemoveToken | wal.go:170-195 | Deletes at most the named token and answers what the last look showed; ambiguous deletes are not believed. |
| RotationEngine.Engine.DropMalformed | wal.go:197-217 | An entry with a malformed pair touches nothing but a record of the same pair, and no token. |
| RotationEngine.Engine.WalRollback | wal.go:113-168 | On any payload: acts only for the pending rotation itself, deletes at most its unused token, changes nothing when the config names neither token, and answers yes only with that token gone and nothing pending; "no such token" counts as absence. |
| RotationEngine.Engine.Sweep | backend.go:89-92 | A stale entry never changes anything and is dropped once nothing is pending; without faults one sweep of its own entry settles the pending rotation. |
| RotationEngine.Engine.Recover | path_rotate_root.go:284-346 | Deletes exactly the chosen recorded token, never the active one, and changes nothing when the configured credentials do not work; "no such token" is an error that keeps the books; it leaves no live unused token exactly when the other one was in use or gone. |
| RotationEngine.Engine.CloseBooks | path_rotate_root.go:339-344 | The WAL entry is deleted before the record, and no token and no config is touched. |
| RotationEngine.Engine.AfterCrash | docs/ARCHITECTURE.md:614-622 | A process started after any number of effects of any run satisfies the engine's invariant, with the configured token working and all tokens covered. |
| RotationEngine.Engine.Converge | docs/ARCHITECTURE.md:656-664 | From every crashed state, one fault-free sweep, or guarded recovery when the entry is gone, leaves nothing pending and only the configured token of the two. |
| RotationEngine.Engine.RecoverAndRotate | path_rotate_root.go:140-144 | After that the next rotation is accepted and completes. |
| RotationEngine.SettleAfterCrash | docs/ARCHITECTURE.md:614-622 | For every run and every crash point the restarted engine settles the rotation and completes the next one. |
| RotationEngine.Engine.ConfigWrite | path_config.go:121-254 | Stores exactly the supplied config, only if it is complete and was seen to work with the needed grants, and leaves no cached client; otherwise nothing changes. |
| RotationEngine.Engine.ConfigDelete | path_config.go:289-305 | Deletes the config only when forced, and leaves no cached client. |
| IssuanceProtocol.NoUserForgotten | path_creds.go:201-384 | At every moment of every interleaving a live user with its own nonce has its WAL entry, is being leased, is leased, or was lost in the hand-over window. |
| IssuanceProtocol.OnlyCrashLoses | docs/ARCHITECTURE.md:843-851 | A user is lost exactly by a crash between its final DeleteWAL and the storing of its lease. |
| IssuanceProtocol.DeletesAreOwed | wal.go:231-302 | Every delete the engine sends is owed by an attempt of that name. |
| IssuanceProtocol.DeletesOwnUser | wal.go:231-302 | In every run in which names are taken only when no delete of them is owed, each delete of the engine removes the user of the attempt it acts for. |
| IssuanceProtocol.LeaseSurvives | path_creds.go:252-271 | A handed-over user whose name nobody else owes a delete survives all other requests, sweeps of stale entries of the same name, other revocations, operators and crashes, and its name stays so. |
| IssuanceProtocol.OutsiderSurvives | wal.go:271-281 | A user with no attempt's nonce whose name nobody owes a delete is never deleted by the engine, whatever WAL entries name it. |
| IssuanceProtocol.OutsiderSafeExactlyWhenFree | secret_token.go:243-251 | A user that an operator creates is safe from the engine in every continuation if and only if no delete of its name is owed at that moment. |
| IssuanceProtocol.OutsiderLost | secret_token.go:243-251 | From an empty installation, the run in which a retried revocation deletes an operator's user. |
| IssuanceProtocol.LeaseLost | secret_token.go:243-251 | From an empty installation, the run in which it deletes the user of another stored lease. |
| IssuanceProtocol.RevokedStaysGone | secret_token.go:243-251 | The user of a revoked lease is gone at every later moment of every run. |
| IssuanceProtocol.TooOldToHandOver | backend.go:90-92 | An entry old enough for the sweep never becomes a lease. |
| IssuanceProtocol.FiveMinutes | backend.go:90-92 | The sweep touches only entries of at least 300 seconds, a request only younger ones. |
| IssuanceProtocol.ReuseSafeExactlyWhenFree | path_creds.go:207-243 | A userid that is drawn again yields a lease that every continuation keeps if and only if no running request, sweep, hand-over or stored lease still owes a delete of that name. |
| IssuanceProtocol.OwedDeleteStrikes | secret_token.go:243-251 | Whatever owes the delete, a run in which it is sent and removes the new lease's user. |
| IssuanceProtocol.InvStep | path_creds.go:201-384 | Every effect of anybody, operators under any name included, keeps the books, the distinctness of nonces, and coverage. |
| IssuanceProtocol.SteadyUnderOthers | wal.go:231-302 | Whatever the others do, what a young request, an old sweep or a revocation knows of its entry stays true. |
| IssuanceProtocol.OwnedUnderOthers | path_creds.go:285-384 | While a request is young its own user stays its own, unless an operator deletes it. |
| IssuanceEngine.Engine.Issue | path_creds.go:91-439 | At most five creations, at most one WAL entry at a time, all for users with the granted, bounded expiry; no entry after success, exhaustion or any fault-free run, and no attempt left running. A Secret is returned exactly when an attempt was handed over, without faults exactly when a created user was shown in the group (in password mode with the nonce), and without faults only five collisions keep a user from being created. It carries the minted token, and its user is the lease's own if its name was free when it was created and no operator has deleted it. |
| IssuanceEngine.Engine.IssueUser | path_creds.go:194-384 | The same for its part with effects, for any expiry. |
| IssuanceEngine.Engine.TryNames | path_creds.go:201-283 | The retry loop: an entry is held afterwards exactly when a creation succeeded; without faults it ends with a created user or after five collisions. |
| IssuanceEngine.Engine.TryName | path_creds.go:202-275 | One pass: entry first, then the creation with the entry's nonce as comment; a collision gives the entry up, another error keeps it. |
| IssuanceEngine.AppendPass | path_creds.go:227-271 | A pass adds one creation to the log and leaves its own entry or none outstanding. |
| IssuanceEngine.Engine.ReadBack | path_creds.go:289-339 | Passes only a user shown in the group, in password mode with the nonce, and without faults exactly such a user. |
| IssuanceEngine.Engine.Deliver | path_creds.go:289-384 | Succeeds exactly when the attempt is handed over: after such a read-back, in token mode with a minted token, and a deleted entry; without faults the read-back alone decides, and no entry is left either way. |
| IssuanceEngine.Engine.Cleanup | path_creds.go:451-475 | The entry is dropped only when the user is known to be gone, and always when nothing fails. |
| IssuanceEngine.Engine.DeleteUser | internal/pveapi/client.go:549-556 | Whatever response comes back, a delete counts as done only when the user is absent. |
| IssuanceEngine.Engine.WalRollbackUser | wal.go:231-302 | Answers yes only when nothing of the entry is left, whatever happens between its calls; without faults it answers yes for every entry with a userid, and never for one without. |
| IssuanceEngine.Engine.SweepEntry | backend.go:89-92 | One fault-free sweep removes the orphan and its entry; an entry goes only when its user is gone or not its own. |
| IssuanceEngine.Engine.RevokeLease | secret_token.go:232-252 | Yes means that the user is absent. |
| IssuanceEngine.Engine.EndLease | secret_token.go:243-251 | Vault forgets a lease only when its user is gone, and does so without faults. |
| Leases.Lease.constructor | path_creds.go:386-439 | What issuance records satisfies the invariant of a lease: records intact, finite expiry within the maximum. |
| Leases.Lease.Renew | secret_token.go:102-221 | Success means an enabled user in the lease's own group with the same bounded expiry on the server and on record. The lifetime is the increment, else that of the stored role, else that of the config, else (once role or config is gone) that of the lease, else the system default, cut at the limit; without faults an enabled user is refused exactly past the limit or when no lifetime is set. The comment stays, a disabled or absent user stays so, and failure changes no record. |
| Leases.Lease.Revoke | secret_token.go:232-252 | Yes means that the user is absent; the user is removed or untouched. |
| Leases.Lease.Live | secret_token.go:102-252 | Over any history of renewals, revocations, arbitrary operator edits and role changes: the expiry is bounded unless an operator lifts it, and again from any successful renewal on; after a revocation that said yes no renewal brings the user back. |
| Leases.Lease.UpdateUser | internal/pveapi/client.go:518-542 | An update that would drop the expiry, the group or the user is never sent. |
| Leases.ExtractInvertsRecord | secret_token.go:258-316 | What issuance stores in InternalData is read back unchanged. |
| Leases.ExtractIgnoresExpire | secret_token.go:213-215 | Rewriting the expiry loses no other record. |
| Leases.ExtractExactly | secret_token.go:258-316 | The records are refused exactly when user, group or maximum is missing or of the wrong kind; a missing role name reads as none. |
| Lifetime.IssueBounded | path_creds.go:112-150 | Issuance grants the first lifetime that is set, cut at the strictest maximum, and is refused exactly when none is set; its expiry is the end of the lease in whole seconds plus 60, within maximum plus 60 s. |
| Lifetime.RenewBounded | secret_token.go:135-158 | The same expiry for renewals; no increment, role or clock carries it past issue time plus maximum plus 60 s. |
| Lifetime.CappedMaxIsStrictest | path_roles.go:99-111 | The capped maximum is the strictest bound that is set, and 0 only when none is. |
| ClientCache.InvStep | backend.go:106-148 | Every step of every thread keeps the cache at least as new as the newest finished writer. |
| ClientCache.StaleOnlyWhileWriterPending | backend.go:106-140 | In every interleaving a cached client, or a config read under the lock, that differs from the stored one means a writer is between its store and its invalidate. |
| ClientCache.CoherentAtRest | path_config.go:241-246 | With no writer on its way the cache is empty or built from the stored config. |
| ClientCache.NoStaleClientAfterReturn | path_config.go:297-302 | A call that begins after a config write returned never gets an older client. |
| ClientCache.CachedClientIsReturned | backend.go:106-112 | In every reachable state with the lock free and a client cached, one step of a new call returns that client. |
| ClientCache.ClientIsBuilt | backend.go:114-139 | With the cache empty, the lock free and a config stored, a call alone and without failures returns a client of that config and leaves it cached. |
| ClientCache.FailureHasACause | backend.go:123-136 | A call fails only in a step that fails or for want of a config. |
| ClientCache.WriteTakesEffect | path_config.go:241-246 | A write alone and without failures is stored and leaves no client cached. |
| Permissions.HasPrivilege | internal/pveapi/types.go:31-67 | The walk answers yes exactly when the path itself grants the privilege or a proper ancestor propagates it, for every tree and every path. |
| Permissions.EffectiveMonotone | internal/pveapi/types.go:20-30 | Added grants and raised flags never take a privilege away. |
| Permissions.OneGrant | internal/pveapi/types.go:20-30 | A single grant counts on its own path whatever its flag, on paths below it only with a non-zero flag, and nowhere else. |
| Suffix.DecodeInvertsEncode | userid.go:40-60 | The packed bytes can be recovered from the suffix. |
| Suffix.EncodeInvertsDecode | userid.go:29-60 | Every string of eight symbols is the suffix of some five bytes. |
| Suffix.EncodeInjective | userid.go:40-60 | Distinct draws give distinct suffixes. |
| Suffix.SymbolExactly | userid.go:29-31 | The alphabet is the digits and the small letters but i, l, o and u. |
| Suffix.EncodeOfOne | userid.go:47-59 | A concrete suffix: the last byte and the last symbol weigh least. |
| Suffix.EncodeOfHigh | userid.go:47-59 | Another one: the first byte and the first symbol weigh most. |
| Suffix.Pack | userid.go:47-59 | The two loops compute the base conversion. |
| UserId.CheckComponent | userid.go:85-105 | Accepts exactly the non-empty strings without white space and without the five separators. |
| UserId.CheckRealm | userid.go:114-130 | Accepts exactly the realm grammar, although its length test counts bytes. |
| UserId.BuildFits | userid.go:144-155 | A userid with a drawn suffix has at most 64 bytes exactly when its parts are within the budget. |
| UserId.BuildParses | userid.go:68-70 | It starts with prefix and role, holds one '@' and no other separator or white space, and its suffix and realm can be read back. |
| UserId.OrdinaryIsValid | userid.go:85-130 | Letters, digits, dots, dashes and underscores are always accepted in components, and in realms after a letter. |
| UserId.SeparatorsAreInvalid | userid.go:85-105 | No accepted part holds a separator or white space. |
| UserId.BuildInjective | path_creds.go:202-207 | Two draws for one role give two userids. |
| TokenId.Split | path_rotate_root.go:111-117 | An accepted name is re-joined from its non-empty parts. |
| TokenId.SplitInvertsJoin | path_rotate_root.go:153-155 | Splitting undoes joining for every non-empty user and every non-empty token name without '!'. |
| TokenId.SplitAcceptsExactly | path_rotate_root.go:111-117 | Accepts exactly the strings whose last '!' has text on both sides. |
| TokenId.SplitInjective | wal.go:122-157 | The pair a recovery deletes belongs to the recorded id and to no other. |
| PveClient.Classify | internal/pveapi/client.go:265-324 | Each error class is reported exactly for its status and its text, a conflict before anything else. |
| PveClient.DoRequest | internal/pveapi/client.go:173-223 | Success exactly for a complete body of at most 1 MiB and a 2xx status; a missing or existing object only for such a body at status 400 or 500, and for a plain-text body exactly when it says so. |
| PveClient.DeleteUser | internal/pveapi/client.go:549-556 | "User not found" exactly for a response whose fields, one by one or broken over neighbours, deny the user and report no conflict; only at status 400 or 500 and within 1 MiB, and at both statuses for a body that says so. |
| PveClient.GetUser | internal/pveapi/client.go:450-470 | The same for a read; a user comes back only from a success that holds one. |
| PveClient.TokenExists | internal/pveapi/client.go:572-592 | An answer is a complete list and is right about it, and every error is distinguished from "absent". |
| PveClient.UserNotFoundExactly | internal/pveapi/client.go:286-320 | The searched joined text denies the user exactly when the fields do: one of them, two neighbours in one of two ways, or three; and the same for a conflict. |
| PveClient.DenyUserExactly | internal/pveapi/client.go:288-305 | For all parts: when the joined text contains "no such user". |
| PveClient.DeniedByNoFieldExactly | internal/pveapi/client.go:288-305 | Exactly when a response denies the user although no field does. |
| Text.ThreeWordsJoined | internal/pveapi/client.go:297-300 | For all parts and all three words: when the joined text contains the words, in terms of the parts. |
| Answers.Deleted | internal/pveapi/client.go:202-234 | Of all responses to a delete whose complete success or denial, if they are one, is true, none makes a present user count as gone. |
| Answers.Read | internal/pveapi/client.go:450-470 | Of all responses to a read whose complete success or denial, if they are one, is true, none makes a present user absent or shows a wrong one. |
| Answers.Listed | internal/pveapi/client.go:572-592 | Of all responses to a token list whose complete success or denial, if they are one, is true, none makes a live token absent. |
| PveClient.PhraseMaySpanFields | internal/pveapi/client.go:288-305 | Such a response, with the body a server would send. |
| Roles.ReplaySound | path_roles.go:285-566 | Every role that any history of creates, partial updates and deletes leaves behind has valid parts within the budget, ordered lifetimes, a known mode, and a password only in realm pve. |
| Roles.SoundSuffices | path_roles.go:365-427 | Nothing else keeps a role's fields from being accepted. |
| Roles.RoleWasBacked | path_roles.go:440-495 | Behind every role stands the write that stored it, at which the group existed and the grants for its realm and its group were seen. |
| Roles.BackedSuffices | path_roles.go:440-528 | Nothing else keeps the server's side from passing; an edit of a password role needs no build. |
| Roles.PasswordWasVerified | path_roles.go:497-528 | Behind every password role stands an opt-in that saw the verified build, with no other mode since. |
| Roles.UpdateIsFieldwise | path_roles.go:308-363 | A partial update changes exactly the fields it supplies. |
| Roles.CreateIsFieldwise | path_roles.go:308-363 | A create stores the supplied fields and the defaults of the others, an empty prefix, realm or mode counting as not supplied. |
| Roles.WriteTouchesOne | path_roles.go:529-545 | A write or delete changes no other role. |
| Roles.IssuedUserIdsAreSafe | path_creds.go:202-207 | Every userid issued for any reachable role has at most 64 bytes, one '@', none of the separators that break a header, and gives suffix and realm back. |
| Roles.RoleStore.CheckFields | path_roles.go:365-427 | The checks without the server accept exactly the sound roles. |
| Roles.RoleStore.WriteRole | path_roles.go:285-566 | Stores exactly the merged role, only if sound and backed by what the server said, and every such one when nothing fails. |
| Roles.RoleStore.DeleteRole | path_roles.go:614-625 | Removes exactly that role, or nothing. |

## Left out

- HTTP, TLS, URL and form encoding, JSON decoding: a response arrives decoded, and the protocols see an abstract server.
- The Vault framework: routing, schemas, help, logging, warnings, standby forwarding, seal wrapping, and a sweep that ignores the minimum age.
- Dispatch on the WAL kind and payloads that cannot be decoded: each rollback starts from a decoded entry.
- TLS settings in the config: they take part in nothing but building a client.
- A config write inside a running rotation: there is no common lock, and the safety claim is not meant for it.
- RotationEngine.Engine.GetClient: reads the cache once; the double-checked reads are stepped lock by lock in ClientCache.
- RotationProtocol.NoTokenForgotten: holds without operator writes only; what a recovery forgets after one is stated exactly by Recover.
- IssuanceProtocol.NoUserForgotten: a crash between the final DeleteWAL and Vault's storing of the lease leaves a user to its expiry, as docs/ARCHITECTURE.md:843-851 admits.
- IssuanceProtocol.OutsiderSurvives: covers users under names nobody owes a delete; for the others the code fails, as OutsiderLost shows and OutsiderSafeExactlyWhenFree delimits.
- Users whose comment an operator or the server altered: the rollback drops their entries by design.
- Requests still under way when their handler gives up on them: a call takes effect before it returns or never.
- Leases.Lease.Revoke: one lease by itself; among everything else that runs the same handler is IssuanceEngine.Engine.RevokeLease.
- Leases.Lease.Renew: an operator's disabling between the first read and the update is undone, as secret_token.go:171-173 admits; operations of one lease do not overlap here.
- Decoding of effective_max_ttl from a float or a JSON number, overflow of 64-bit durations, and truncation of lifetimes to seconds by Vault: numbers are exact.
- Password generation and the build test at issuance: seen only as one more way to fail before the loop.
- Reading and listing of roles and config, rotation status: answers without effects.
- Group lists on the wire (types.go normalisation): users hold a list of groups.
- JSON decoding itself: that the fields of a response are those of its body is not checked.
- PveClient.Classify: strings that are not valid UTF-8 are not represented; the order of the errors map is a parameter, so each statement holds for every order.
- Roles that change while a replacement is validated: the role store is fixed during a rotation.
- States written by earlier versions: a record without a WAL id and the phases "in-progress" and "config-persisted" are not reachable from an empty store.
